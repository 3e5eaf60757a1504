# ThreadSafeMemoryCache in Dafny

This project models the core of ThreadSafeMemoryCache, a C# in-memory cache library, and proves what it promises.

- **Cache.** A named cache of key/value items. Each item has a size, a time to live and the instant it was added or last refreshed.
  - The cache keeps a running `CurrentSize` against a `SizeLimit`.
  - Under size pressure it raises `SizeLimitReached`. It then flushes outdated items and, if that is not enough, a fixed fraction of the oldest items.
  - Reads drop an outdated item they come across.
  - A background task sweeps the cache periodically.
  - `Dispose` cancels the cache and empties it.
- **CacheItem.** An item whose `Value` setter refreshes its timestamp.
- **CacheManager.** A singleton registry of caches by name. It creates, looks up (with a check of the key and value types), removes and disposes caches.

The model has two layers:

- **Specification layer.** Every cache operation is a pure transition on a `CacheState`: the items in list order, `CurrentSize`, the cancellation flag, and how many times `SizeLimitReached` was raised. `CacheSpec` holds the transitions. `CacheProperties` proves what they guarantee, in particular:
  - they preserve the invariant: one item per key, every size within `[1, SizeLimit]`, and `CurrentSize` equal to the total size of the held items;
  - a stored value can be read back;
  - the oldest-items flush removes exactly `trunc(Count * fraction)` items, earliest timestamp first, as a permutation split;
  - every error path behaves as the source defines it.
- **Imperative layer.** `Caches.Cache` is a class over a `seq` of `CacheItem` objects that are updated in place. Each of its methods is proved to move the object's state exactly as the matching transition does. The flush loops carry their own invariants. `Registry.CacheManager` is a class over a map from names to caches. Its invariant tracks registration only (each cache under its own name with an accepted configuration); it does not carry each cache's own `Valid()`, so a cache handed back by `Get` must be re-established as valid before a verified client calls its methods.

The clock is not read. Every operation takes the current instant `now` as a parameter, measured in ticks of 100 ns. All of an operation happens at that one instant.

`AsWritten` holds the places where the source departs from what it evidently intends (see "## Findings"). Everywhere else the model uses the corrected behaviour.

**Eviction happens before the insert.** Add checks the limit and flushes *before* it appends the new item (Cache.cs, lines 398-414). Take limit 100, item size 10, fraction 0.5 and ten adds. On the tenth add the flush sees nine items and removes `trunc(9 * 0.5) = 4` of them. The tenth item is then appended, `CurrentSize` ends at 60, and keys 5 to 10 remain. `Scenarios.TenthAddEvictsFourOldest` and `Scenarios.TenthAddKeepsNewestSix` prove this outcome.

**Which items the oldest-items flush picks.** The flush orders the items by timestamp with `OrderBy`, which is a stable sort, so among items with equal timestamps it keeps list order. `ItemLists.OldestIndex` picks the first item in list order among those with the earliest timestamp. `ItemLists.EvictOldest` repeats that choice. So the model evicts exactly the items the source evicts.

Modules, in dependency order:

- `Errors`: options, results, and the exceptions as error values
- `Configuration`: the configuration, its validation, and the removal count
- `CacheItems`: the item value and the item class
- `ItemLists`: functions over item lists, with their lemmas
- `CacheSpec`: the transitions
- `CacheProperties`: what the transitions guarantee
- `Scenarios`: concrete runs
- `Caches`: the Cache class
- `Registry`: the CacheManager
- `AsWritten`: the findings

## Model

| member | source | states |
|---|---|---|
| Configuration.ValidateConfiguration | asuarezc.threadsafememorycache/Cache.cs:78-96 | A configuration is accepted exactly when the name is non-empty, the configuration is present, SizeLimit >= 1, DefaultItemSize <= SizeLimit and the fraction lies in [0, 1]. The checks run in the source's order, and each failure gives that check's error: an empty name or a missing configuration gives ArgumentNull; then SizeLimit < 1 gives ArgumentOutOfRange; then a default size above the limit gives InvalidOperation; then a fraction outside [0, 1] gives ArgumentOutOfRange |
| Configuration.RemovalCount | asuarezc.threadsafememorycache/Cache.cs:446-448 | The number of oldest items removed is the truncation of Count * fraction: never more than Count, and the largest r with r <= Count * fraction |
| CacheItems.Refreshed | asuarezc.threadsafememorycache/CacheItemGeneric.cs:22-30 | Rewriting an item keeps its key, and with a non-negative time to live the refreshed item is not outdated at the instant of the write |
| CacheItems.CacheItem.constructor | asuarezc.threadsafememorycache/CacheItemGeneric.cs:47-60 | A new item holds its key, value, size and time to live, stamped with the current instant, and is not outdated then |
| CacheItems.CacheItem.SetValue | asuarezc.threadsafememorycache/CacheItemGeneric.cs:22-30 | Setting the value also re-stamps the item with the current instant; nothing else changes |
| CacheItems.CacheItem.SetSize | asuarezc.threadsafememorycache/CacheItemGeneric.cs:35 | Setting the size changes only the size |
| CacheItems.CacheItem.SetExpiration | asuarezc.threadsafememorycache/CacheItemGeneric.cs:45 | Setting the time to live changes only the time to live |
| CacheItems.NewItem | asuarezc.threadsafememorycache/CacheItemGeneric.cs:47-60 | Construction fails with ArgumentNull exactly when the key or the value is missing; otherwise it yields a fresh item holding the arguments, stamped now |
| ItemLists.IndexOf | asuarezc.threadsafememorycache/Cache.cs:127-128 | The lookup by key finds nothing exactly when no item has the key; otherwise it gives the first position holding the key |
| ItemLists.IndexOfUnique | asuarezc.threadsafememorycache/Cache.cs:127-128 | With unique keys, the lookup of an item's key finds that very item |
| ItemLists.TotalSizeRemoveAt | asuarezc.threadsafememorycache/Cache.cs:321-322 | Removing an item and subtracting its size keeps CurrentSize equal to the total size of the list |
| ItemLists.KeysUniqueRemoveAt | asuarezc.threadsafememorycache/Cache.cs:321-322 | Removing an item keeps keys unique and its key is no longer present |
| ItemLists.AppendFreshKey | asuarezc.threadsafememorycache/Cache.cs:410-414 | Appending an item whose key is absent keeps keys unique, and the key is then found at the new last position |
| ItemLists.ReplaceSameKey | asuarezc.threadsafememorycache/Cache.cs:435-441 | Rewriting an item in place keeps the list's keys, their uniqueness and the item's position |
| ItemLists.LiveProperties | asuarezc.threadsafememorycache/Cache.cs:467-483 | The outdated flush keeps exactly the items that are not outdated, lowers the total size by the sizes of the outdated ones, and keeps keys unique |
| ItemLists.OldestIndex | asuarezc.threadsafememorycache/Cache.cs:450-452 | The item picked next by OrderBy(UTCDateAdded) has the earliest timestamp, and is the first such in list order |
| ItemLists.EvictOldestProperties | asuarezc.threadsafememorycache/Cache.cs:444-465 | Evicting the n oldest items splits the list as a permutation into kept and evicted parts. Every evicted item is no newer than every kept one, the evicted come in ascending timestamp order, sizes add up, and kept keys stay unique |
| ItemLists.EvictOldestAscending | asuarezc.threadsafememorycache/Cache.cs:450-452 | When timestamps ascend in list order, evicting the n oldest items drops exactly the first n |
| CacheSpec.RemoveItem | asuarezc.threadsafememorycache/Cache.cs:321-322 | Removing the item at a position shifts the later items down by one, lowers CurrentSize by that item's size, and leaves the cancellation flag and notifications alone |
| CacheSpec.FlushOutdated | asuarezc.threadsafememorycache/Cache.cs:467-483 | The outdated flush, as intended, leaves the cancellation flag and notification count alone. `CacheProperties.FlushOutdatedMembers` proves it keeps exactly the live items |
| CacheSpec.OutdatedGuard | asuarezc.threadsafememorycache/Cache.cs:398-402 | The first guard raises SizeLimitReached once exactly when CurrentSize plus the growth reaches the limit. Below the limit it changes nothing. It never touches the cancellation flag |
| CacheSpec.OldestGuard | asuarezc.threadsafememorycache/Cache.cs:404-408 | The second guard raises SizeLimitReached once exactly when CurrentSize plus the growth reaches the limit. Below the limit it changes nothing. It never touches the cancellation flag |
| CacheSpec.MakeRoom | asuarezc.threadsafememorycache/Cache.cs:398-408 | Both guards together raise at most two notifications, change nothing below the limit and keep the cancellation flag |
| CacheSpec.Append | asuarezc.threadsafememorycache/Cache.cs:410-414 | Appending leaves the cancellation flag and notification count alone. `CacheProperties.AppendProps` proves the new item ends at the end of the list, found under its key |
| CacheSpec.Add | asuarezc.threadsafememorycache/Cache.cs:395-415 | The private Add keeps the cancellation flag and raises at most two notifications. `CacheProperties.AddFresh` proves it stores the item under its key |
| CacheSpec.RefreshAt | asuarezc.threadsafememorycache/Cache.cs:435-441 | The setters rewrite the item at its position. It keeps its key and takes the new value, size and time to live, stamped now. The list length, the flag and the notification count are unchanged |
| CacheSpec.Store | asuarezc.threadsafememorycache/Cache.cs:435-441 | Storing a held key keeps the list length; storing an absent key adds one item. The flag and notification count are unchanged |
| CacheSpec.Update | asuarezc.threadsafememorycache/Cache.cs:417-442 | The corrected Update keeps the cancellation flag and raises at most two notifications. `CacheProperties.UpdateProps` proves the new contents end under the key |
| CacheSpec.Put | asuarezc.threadsafememorycache/Cache.cs:127-151 | The locked part of AddOrUpdate keeps the cancellation flag and raises at most two notifications |
| CacheSpec.Clear | asuarezc.threadsafememorycache/Cache.cs:337-340 | Clear of a live cache empties the list and sets CurrentSize to zero. A cancelled cache is left as it is |
| CacheSpec.FlushOldest | asuarezc.threadsafememorycache/Cache.cs:444-465 | The oldest-items flush removes exactly trunc(Count * fraction) items and raises nothing |
| CacheSpec.AddOrUpdate | asuarezc.threadsafememorycache/Cache.cs:112-121 | A cancelled cache ignores the call. Otherwise the call fails exactly when the key or value is missing (ArgumentNull) or, with both present, the size is outside [1, SizeLimit] (ArgumentOutOfRange), and a failed call changes nothing |
| CacheSpec.ContainsKey | asuarezc.threadsafememorycache/Cache.cs:222-228 | A cancelled cache answers false; a missing key fails with ArgumentNull and changes nothing |
| CacheSpec.Get | asuarezc.threadsafememorycache/Cache.cs:263-269 | A cancelled cache returns the caller's default; a missing key fails with ArgumentNull and changes nothing |
| CacheSpec.Remove | asuarezc.threadsafememorycache/Cache.cs:303-309 | A cancelled cache ignores the call; a missing key fails with ArgumentNull and changes nothing |
| CacheSpec.RemoveAll | asuarezc.threadsafememorycache/Cache.cs:342-361 | Unless the cache is cancelled and the override is off, the list is emptied and CurrentSize is zero; a cancelled cache without the override is left as it is |
| CacheSpec.Dispose | asuarezc.threadsafememorycache/Cache.cs:488-500 | After Dispose the cache is cancelled, holds no items and has CurrentSize zero |
| CacheSpec.SweepStep | asuarezc.threadsafememorycache/Cache.cs:363-393 | A sweep pass of a cancelled cache changes nothing |
| CacheProperties.InitialInv | asuarezc.threadsafememorycache/Cache.cs:98-99 | A new cache satisfies the invariant: unique keys, sizes within [1, SizeLimit], CurrentSize equal to the sum of sizes |
| CacheProperties.RemoveItemInv | asuarezc.threadsafememorycache/Cache.cs:321-322 | Removing an item keeps the invariant and the key is gone |
| CacheProperties.FlushOutdatedMembers | asuarezc.threadsafememorycache/Cache.cs:467-483 | After the outdated flush an item is held exactly when it was held before and is not outdated |
| CacheProperties.FlushOutdatedInv | asuarezc.threadsafememorycache/Cache.cs:467-483 | The outdated flush keeps the invariant |
| CacheProperties.FlushOldestMembers | asuarezc.threadsafememorycache/Cache.cs:444-465 | The oldest-items flush only removes items |
| CacheProperties.FlushOldestInv | asuarezc.threadsafememorycache/Cache.cs:444-465 | The oldest-items flush keeps the invariant. The kept items plus the evicted ones are the old items as a multiset; the evicted are the oldest, in ascending order |
| CacheProperties.FlushOldestAscending | asuarezc.threadsafememorycache/Cache.cs:444-465 | When items were added in timestamp order, the flush drops exactly the first trunc(Count * fraction) items and their sizes |
| CacheProperties.OutdatedGuardProps | asuarezc.threadsafememorycache/Cache.cs:398-402 | The first guard keeps the invariant and only removes items. It raises SizeLimitReached once exactly when CurrentSize plus the growth reaches the limit, and otherwise changes nothing |
| CacheProperties.OldestGuardProps | asuarezc.threadsafememorycache/Cache.cs:404-408 | The second guard keeps the invariant and only removes items. It raises SizeLimitReached once exactly when CurrentSize plus the growth reaches the limit, and otherwise changes nothing |
| CacheProperties.MakeRoomProps | asuarezc.threadsafememorycache/Cache.cs:398-408 | Both guards together keep the invariant and only remove items. They raise at most two notifications, at least one under pressure, and change nothing below the limit |
| CacheProperties.AddWithoutPressure | asuarezc.threadsafememorycache/Cache.cs:395-415 | Below the limit, Add only appends the item and adds its size |
| CacheProperties.AppendProps | asuarezc.threadsafememorycache/Cache.cs:410-414 | Appending an absent key keeps the invariant and the new item is found under its key at the end of the list |
| CacheProperties.AddFresh | asuarezc.threadsafememorycache/Cache.cs:395-415 | Add of an absent key keeps the invariant and stores the item under its key. Every other held item was held before. The flag is unchanged and at most two notifications are raised |
| CacheProperties.RefreshProps | asuarezc.threadsafememorycache/Cache.cs:435-441 | Refreshing an item in place keeps the invariant and its position; no other item changes |
| CacheProperties.StoreProps | asuarezc.threadsafememorycache/Cache.cs:435-441 | Storing a key (in place if held, appended otherwise) keeps the invariant and the new item is found under its key |
| CacheProperties.UpdateProps | asuarezc.threadsafememorycache/Cache.cs:417-442 | Update of a held key keeps the invariant and leaves the new value, size and time to live under the key, stamped now. Every other held item was held before; at most two notifications |
| CacheProperties.AddOrUpdateStores | asuarezc.threadsafememorycache/Cache.cs:123-152 | A valid AddOrUpdate on a live cache succeeds, keeps the invariant and leaves exactly the new item under the key. Every other held item was held before; at most two notifications |
| CacheProperties.AddOrUpdatePreservesInv | asuarezc.threadsafememorycache/Cache.cs:112-161 | Every AddOrUpdate call, valid or not, keeps the invariant |
| CacheProperties.GetAfterAddOrUpdate | asuarezc.threadsafememorycache/Cache.cs:263-298 | Right after a successful AddOrUpdate with a non-negative time to live, Get of the key returns the stored value |
| CacheProperties.AddOrUpdateRefreshesInPlace | asuarezc.threadsafememorycache/Cache.cs:139-140 | Below the limit, updating a live item rewrites it at its position and adjusts CurrentSize by the size difference |
| CacheProperties.AddOrUpdateReplacesOutdated | asuarezc.threadsafememorycache/Cache.cs:141-150 | Below the limit, an outdated item with the key is removed and the new one appended at the end |
| CacheProperties.AddOrUpdateAppendsAbsent | asuarezc.threadsafememorycache/Cache.cs:130-136 | Below the limit, a new key is appended and CurrentSize grows by its size |
| CacheProperties.AddOrUpdateUnderPressureNotifies | asuarezc.threadsafememorycache/Cache.cs:398-408 | Adding a new key that reaches the limit raises SizeLimitReached |
| CacheProperties.GetSpec | asuarezc.threadsafememorycache/Cache.cs:275-288 | Get returns the value of a live item with the key and changes nothing. An outdated match is removed and the default returned. An absent key gives the default. The invariant holds throughout |
| CacheProperties.ContainsKeySpec | asuarezc.threadsafememorycache/Cache.cs:234-247 | ContainsKey is true exactly when a live item has the key. An outdated match is removed; otherwise nothing changes; the invariant holds |
| CacheProperties.RemoveSpec | asuarezc.threadsafememorycache/Cache.cs:315-322 | Remove drops the item with the key, if any, keeps the invariant, and afterwards no item has the key |
| CacheProperties.RemoveAllInv | asuarezc.threadsafememorycache/Cache.cs:342-361 | RemoveAll, and so Clear and Dispose, keeps the invariant |
| CacheProperties.SweepStepSpec | asuarezc.threadsafememorycache/Cache.cs:367-377 | A sweep pass keeps the invariant and leaves only held, non-outdated items. Below the limit after the outdated flush it stops there. Otherwise it raises SizeLimitReached once and removes trunc(Count * fraction) of the remaining items |
| Scenarios.FilledBeforeLimit | asuarezc.threadsafememorycache/Cache.cs:395-415 | With limit 100, nine adds of size 10 build the list in insertion order with CurrentSize 90 and no notifications |
| Scenarios.TenthAddEvictsFourOldest | asuarezc.threadsafememorycache/Cache.cs:395-415 | The tenth add raises SizeLimitReached twice, evicts the four oldest of the nine items and ends with six items and CurrentSize 60 |
| Scenarios.TenthAddKeepsNewestSix | asuarezc.threadsafememorycache/Cache.cs:263-298 | After the ten adds, Get of keys 1 to 4 gives the default and of keys 5 to 10 gives their values |
| Scenarios.ZeroFractionOverfills | asuarezc.threadsafememorycache/Cache.cs:404-408 | With a removal fraction of 0 and nothing outdated, an add goes over the limit: CurrentSize 14 against a limit of 10 |
| Caches.Cache.constructor | asuarezc.threadsafememorycache/Cache.cs:76-106 | A cache built from an accepted configuration runs with exactly that configuration, is empty, not cancelled, and satisfies the invariant |
| Caches.NewCache | asuarezc.threadsafememorycache/Cache.cs:76-106 | Construction fails exactly when validation rejects the name or configuration, with that error. Otherwise it yields a fresh, empty, valid cache with the configuration copied |
| Caches.Cache.ItemsDistinct | asuarezc.threadsafememorycache/Cache.cs:16 | Different positions of the item list hold different objects, so writing one item leaves the others alone |
| Caches.Cache.Find | asuarezc.threadsafememorycache/Cache.cs:127-128 | The loop over the list returns the position of the item with the key, or none |
| Caches.Cache.RemoveItemAt | asuarezc.threadsafememorycache/Cache.cs:321-322 | Removing an item object moves the state as RemoveItem does and keeps the invariant |
| Caches.Cache.FlushOutdatedItems | asuarezc.threadsafememorycache/Cache.cs:467-483 | The outdated flush removes exactly the outdated items and keeps the invariant |
| Caches.Cache.DropOutdated | asuarezc.threadsafememorycache/Cache.cs:475-482 | The flush loop leaves exactly the live items in order and lowers CurrentSize by the outdated sizes |
| Caches.Cache.OldestPosition | asuarezc.threadsafememorycache/Cache.cs:450-451 | The scan returns the position of the first item with the earliest timestamp |
| Caches.Cache.RemoveOldest | asuarezc.threadsafememorycache/Cache.cs:457-460 | One step of the oldest flush removes the oldest item and its size |
| Caches.Cache.FlushOldestItems | asuarezc.threadsafememorycache/Cache.cs:444-465 | The oldest flush moves the state as FlushOldest does and keeps the invariant |
| Caches.Cache.DropOldest | asuarezc.threadsafememorycache/Cache.cs:457-464 | The loop removes the n oldest items, lowering CurrentSize by their total size |
| Caches.Cache.GuardOutdated | asuarezc.threadsafememorycache/Cache.cs:398-402 | The first guard as OutdatedGuard, keeping the invariant |
| Caches.Cache.GuardOldest | asuarezc.threadsafememorycache/Cache.cs:404-408 | The second guard as OldestGuard, keeping the invariant |
| Caches.Cache.MakeRoom | asuarezc.threadsafememorycache/Cache.cs:398-408 | Both guards, as MakeRoom |
| Caches.Cache.AppendItem | asuarezc.threadsafememorycache/Cache.cs:410-414 | A new item object is appended, the old objects stay in front, CurrentSize grows by its size |
| Caches.Cache.Add | asuarezc.threadsafememorycache/Cache.cs:395-415 | The private Add moves the state as Add does and keeps the invariant |
| Caches.Cache.Refresh | asuarezc.threadsafememorycache/Cache.cs:435-441 | The setters on the held item object rewrite it in place; the list of objects is unchanged |
| Caches.Cache.StoreItem | asuarezc.threadsafememorycache/Cache.cs:435-441 | The last step of Update: the item is rewritten in place, or appended if it was evicted |
| Caches.Cache.Update | asuarezc.threadsafememorycache/Cache.cs:417-442 | The private Update moves the state as Update does and keeps the invariant |
| Caches.Cache.Put | asuarezc.threadsafememorycache/Cache.cs:127-151 | The locked part of AddOrUpdate: add, update or replace the outdated item |
| Caches.Cache.AddOrUpdateFor | asuarezc.threadsafememorycache/Cache.cs:167-217 | AddOrUpdate with a time to live moves the state and result as CacheSpec.AddOrUpdate, so a size outside [1, SizeLimit] gives ArgumentOutOfRange with nothing changed, and keeps the invariant |
| Caches.Cache.AddOrUpdate | asuarezc.threadsafememorycache/Cache.cs:112-161 | AddOrUpdate with the configured DefaultItemExpiration moves the state and result as CacheSpec.AddOrUpdate, so a size outside [1, SizeLimit] gives ArgumentOutOfRange with nothing changed, and keeps the invariant |
| Caches.Cache.ContainsKey | asuarezc.threadsafememorycache/Cache.cs:222-257 | ContainsKey moves the state and result as CacheSpec.ContainsKey and keeps the invariant |
| Caches.Cache.Get | asuarezc.threadsafememorycache/Cache.cs:263-298 | Get moves the state and result as CacheSpec.Get and keeps the invariant |
| Caches.Cache.Remove | asuarezc.threadsafememorycache/Cache.cs:303-332 | Remove moves the state and result as CacheSpec.Remove and keeps the invariant |
| Caches.Cache.RemoveAll | asuarezc.threadsafememorycache/Cache.cs:342-361 | RemoveAll as CacheSpec.RemoveAll. It keeps the invariant, and restores it for a configured cache whenever it empties the list |
| Caches.Cache.Clear | asuarezc.threadsafememorycache/Cache.cs:337-340 | Clear as RemoveAll without the override, keeping the invariant |
| Caches.Cache.Dispose | asuarezc.threadsafememorycache/Cache.cs:488-500 | Dispose cancels and empties the cache and leaves it valid |
| Caches.Cache.SweepStep | asuarezc.threadsafememorycache/Cache.cs:367-377 | One sweep pass moves the state as CacheSpec.SweepStep does and keeps the invariant |
| Registry.TypeCheck | asuarezc.threadsafememorycache/CacheManager.cs:41-59 | The lookup's type check passes exactly when both types match. A key-type mismatch is reported first; a value-type mismatch only when the key types agree |
| Registry.CacheManager.constructor | asuarezc.threadsafememorycache/CacheManager.cs:23-26 | The manager starts with no caches |
| Registry.CacheManager.ExitsIffNamedCache | asuarezc.threadsafememorycache/CacheManager.cs:107-111 | Exits holds for a name exactly when a registered cache carries that name |
| Registry.CacheManager.Get | asuarezc.threadsafememorycache/CacheManager.cs:31-62 | An empty name gives ArgumentNull and an unknown name gives no cache. A known name gives its cache exactly when the key and value types both match; otherwise KeyTypeMismatch, or ValueTypeMismatch when only the value type differs |
| Registry.CacheManager.Create | asuarezc.threadsafememorycache/CacheManager.cs:67-102 | Create fails exactly when validation fails (with its error) or the name is taken (NameTaken), changing nothing. Otherwise it registers a fresh, empty cache with the configuration, which Get with the same types then returns |
| Registry.CacheManager.Remove | asuarezc.threadsafememorycache/CacheManager.cs:116-123 | Remove disposes and unregisters the named cache, ignores an unknown name, and afterwards Get finds no cache under the name |
| Registry.CacheManager.RemoveAll | asuarezc.threadsafememorycache/CacheManager.cs:128-132 | Every registered cache is disposed and the registry ends empty |
| AsWritten.SettingsAsWritten | asuarezc.threadsafememorycache/Cache.cs:98-105 | The settings the constructor leaves behind have SizeLimit 0, so no configuration the validation accepts is in effect |
| AsWritten.RemoveAllAsWritten | asuarezc.threadsafememorycache/Cache.cs:342-361 | RemoveAll as written never changes CurrentSize. It empties the list unless the cache is cancelled without the override; in that case the state is unchanged |
| AsWritten.UpdateAsWritten | asuarezc.threadsafememorycache/Cache.cs:417-442 | The as-written Update keeps the cancellation flag and raises at most two notifications. The lemmas below it show where it loses the update |
| AsWritten.FlushOutdatedAsWritten | asuarezc.threadsafememorycache/Cache.cs:467-483 | The as-written flush either changes nothing and succeeds, or removes exactly one item and fails with the collection-modified error |
| AsWritten.TypeCheckAsWritten | asuarezc.threadsafememorycache/CacheManager.cs:41-59 | The as-written check passes exactly when the key types match and the registered value type is System.ValueType, whatever value type was requested. It reports a value-type mismatch exactly when the key types match and the registered value type is anything else |
| AsWritten.Admit | asuarezc.threadsafememorycache/Cache.cs:114-121 | The argument checks of AddOrUpdate let a call through exactly when the cache is cancelled or the key and value are present and 1 <= size <= SizeLimit |
| AsWritten.ConstructedCacheRejectsEveryAdd | asuarezc.threadsafememorycache/Cache.cs:98-105 | With the settings the constructor leaves at their defaults (SizeLimit 0), every AddOrUpdate with key and value fails with ArgumentOutOfRange |
| AsWritten.CopiedConfigurationAdmits | asuarezc.threadsafememorycache/Cache.cs:120-121 | With the configuration's own SizeLimit, an add of size 1 gets through |
| AsWritten.ClearKeepsSize | asuarezc.threadsafememorycache/Cache.cs:351 | Emptying the list without resetting CurrentSize leaves a positive CurrentSize over an empty list and breaks the invariant, for Clear and Dispose. The corrected Clear keeps it |
| AsWritten.ClearLeavesPhantomPressure | asuarezc.threadsafememorycache/Cache.cs:398-408 | After the as-written Clear of a size-5 item (limit 10), adding size 6 to the empty cache raises SizeLimitReached twice; after the corrected Clear it raises none |
| AsWritten.UpdateSecondGuardEvicts | asuarezc.threadsafememorycache/Cache.cs:429-433 | With the guard on CurrentSize + size, re-storing a size-6 item at the same size (limit 10, fraction 1) evicts it and loses the new value |
| AsWritten.UpdateSameSizeRefreshes | asuarezc.threadsafememorycache/Cache.cs:417-442 | The corrected Update, on the same input, refreshes the item in place with no notification |
| AsWritten.UpdateOfEvictedItemIsLost | asuarezc.threadsafememorycache/Cache.cs:429-441 | When the oldest flush evicts the item being updated, the as-written Update writes to the detached item: the cache holds only the other item while CurrentSize says 5, breaking the invariant |
| AsWritten.UpdateOfEvictedItemIsReadded | asuarezc.threadsafememorycache/Cache.cs:417-442 | The corrected Update adds the evicted item anew: both items present, CurrentSize 10, invariant kept |
| AsWritten.FirstOutdated | asuarezc.threadsafememorycache/Cache.cs:469-470 | The enumeration's first outdated item: none exactly when nothing is outdated, otherwise the first outdated position |
| AsWritten.FlushOutdatedThrows | asuarezc.threadsafememorycache/Cache.cs:475-479 | Removing from the list being enumerated throws exactly when some item is outdated; with nothing outdated it agrees with the corrected flush |
| AsWritten.FlushOutdatedLeavesOne | asuarezc.threadsafememorycache/Cache.cs:475-479 | With two outdated items, the as-written flush removes one and throws; the corrected flush removes both |
| AsWritten.GetRejectsMatchingTypes | asuarezc.threadsafememorycache/CacheManager.cs:51 | Comparing with typeof(ValueType) rejects a lookup whose types match exactly (for any value type other than System.ValueType); the corrected check accepts it |
| AsWritten.GetIgnoresRequestedValueType | asuarezc.threadsafememorycache/CacheManager.cs:51 | The as-written check gives the same answer whatever value type is requested; the corrected check rejects a different one |

## Left out

- Locks and concurrency: the reader/writer lock, and the interleaving of the background task with callers. Every operation is modelled as atomic at one instant `now`. The read lock that `ContainsKey`, `Get` and the sweep take while removing items is therefore not modelled.
- The background task: its infinite loop, `Task.Delay(PollingInterval)` and `Task.Factory.StartNew`. Only one pass is modelled (`SweepStep`). Because of this, `PollingInterval` is stored but never used.
- Registry.CacheManager.Valid: the registry's invariant covers registration only and does not include each registered cache's `Valid()` (no footprint over the caches' item objects), so the model does not promise that a cache returned by the manager's `Get` is still valid after other code used it.
- The clock: `DateTime.UtcNow` becomes the `now` parameter, in ticks of 100 ns.
- Numeric width: `long` sizes are unbounded integers, so overflow of `CurrentSize` is not modelled.
- The `float` fraction: it is an exact fraction `num/den`, so float rounding in `Count * fraction` is not modelled.
- Null arguments: a null key or value is the `None` of an `Option`. Names are strings that cannot be null, so the empty name stands in for both null and empty. That matches the source for the constructor and for the manager's `Get` and `Create`, which reject both the same way. It does not match `Exits(null)` and `Remove(null)`: there `Dictionary.ContainsKey(null)` throws ArgumentNullException, while the model's `Exits("")` is false and `Remove("")` does nothing. A null entry in the manager's dictionary does not occur.
- The event `SizeLimitReached`: it is a notification counter. Its handlers, and the clearing of them in `Dispose`, are not modelled.
- The `size == 0 ? DefaultItemSize : size` branch of `AddOrUpdate`: it is dead code, because size 0 is rejected before it, so `DefaultItemSize` is only validated.
- The cancellation checks inside the flush loops: they cannot fire within one atomic operation, because cancellation only happens in `Dispose`.
- `SingleOrDefault` throwing on duplicate keys: the invariant proves keys are unique, so this cannot happen.
- A second `Dispose` (`TokenSource` already disposed) and the waiting for the background task.
- The wrapping of inner exceptions into `CacheOperationException`: the model reports the inner error.
- The manager's dictionary holds caches of any types. In the model all caches share type parameters K and V, and the C# types are `TypeTag` values. The `as` cast in Get always succeeds once the tags match.
- The lazy singleton `CacheManager.Instance`: it is modelled by the constructor.
- `CacheManager.RemoveAll` removes entries while enumerating the dictionary's `Keys`. Whether that throws depends on the .NET runtime version, so the model treats the enumeration as a snapshot of the names.
- The interfaces `ICache`, `ICacheGeneric` and `ICacheManager` only declare the members modelled above, with one difference. `ICacheGeneric` gives `AddOrUpdate`'s size a default of 1, while the class gives it a default of 0. So a call that omits the size is accepted through the interface and rejected with ArgumentOutOfRange through the class. The model has no default arguments: every call passes its size explicitly.
- `CacheOperation.cs` and `CacheOperationException.cs` only serve the exception wrapping, which is left out above.

## Findings

| source | as written | input that shows it | evidently intended | confidence | as-written member | corrected member |
|---|---|---|---|---|---|---|
| asuarezc.threadsafememorycache/Cache.cs:98-105 | The constructor validates the configuration but never copies SizeLimit, DefaultItemExpiration, DefaultItemSize, OldestItemsRemovingPercentage or PollingInterval, so SizeLimit stays 0 | Any accepted configuration (e.g. SizeLimit 100), then AddOrUpdate(k, v, size 1): 1 > SizeLimit 0 throws ArgumentOutOfRangeException | The cache runs with the configuration it was given (`AsWritten.CopiedConfigurationAdmits`) | not executed | AsWritten.ConstructedCacheRejectsEveryAdd | Caches.Cache.constructor |
| asuarezc.threadsafememorycache/Cache.cs:351 | RemoveAll (and so Clear and Dispose) empties the list but leaves CurrentSize as it was | Limit 10, fraction 0.5, one item of size 5; Clear; AddOrUpdate of size 6: the empty cache raises SizeLimitReached twice and flushes | An empty cache has CurrentSize 0 | not executed | AsWritten.ClearKeepsSize | CacheProperties.RemoveAllInv |
| asuarezc.threadsafememorycache/Cache.cs:429 | Update's second guard tests CurrentSize + size, without subtracting the old size as the first guard does | Limit 10, fraction 1, item A of size 6; AddOrUpdate(A, new value, size 6): A is evicted and the new value lost, cache empty | Both guards test the net growth; A is refreshed in place | not executed | AsWritten.UpdateSecondGuardEvicts | CacheProperties.UpdateProps |
| asuarezc.threadsafememorycache/Cache.cs:432-441 | The oldest flush inside Update can evict the very item being updated, which is then written while detached and its size added to CurrentSize | Limit 10, fraction 0.5, A size 5 then B size 4; update A to size 6: cache holds only B while CurrentSize is 5 | The updated item stays in the cache: it is added anew when the flush took it | not executed | AsWritten.UpdateOfEvictedItemIsLost | AsWritten.UpdateOfEvictedItemIsReadded |
| asuarezc.threadsafememorycache/Cache.cs:475-477 | FlushOutdatedItems removes from the List it is lazily enumerating (Where over InternalCache), so the next MoveNext throws InvalidOperationException after the first removal | Two items, both outdated: the first is removed, then the flush throws; AddOrUpdate fails and the background task stops | Every outdated item is removed | not executed | AsWritten.FlushOutdatedThrows | CacheProperties.FlushOutdatedMembers |
| asuarezc.threadsafememorycache/CacheManager.cs:51 | The value-type check compares with typeof(ValueType) instead of typeof(KValue) | Create<string, string>("x", cfg) then Get<string, string>("x"): string is not System.ValueType, so it throws InvalidOperationException | Get returns the cache when both types match | not executed | AsWritten.GetRejectsMatchingTypes | Registry.CacheManager.Get |
