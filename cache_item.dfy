/** One cached entry: a key, its value, a size, the instant it was added or last
    refreshed, and a time to live. */
module CacheItems {
  import opened Errors
  import opened Configuration

  /** The observable state of a CacheItem at one instant. */
  datatype ItemView<K, V> = ItemView(key: K, value: V, size: int, added: Ticks, expiration: Ticks) {
    /** An item is outdated once strictly more than its expiration has elapsed
        since it was added or refreshed. */
    predicate IsOutdated(now: Ticks) {
      now - added > expiration
    }
  }

  /** The view of a live item after its Value, Expiration and Size setters ran at `now`. */
  function Refreshed<K, V>(it: ItemView<K, V>, value: V, expiration: Ticks, size: int, now: Ticks): (r: ItemView<K, V>)
    ensures r.key == it.key
    ensures expiration >= 0 ==> !r.IsOutdated(now)
  {
    ItemView(it.key, value, size, now, expiration)
  }

  class CacheItem<K, V> {
    const key: K
    var value: V
    var size: int
    var added: Ticks
    var expiration: Ticks

    function View(): ItemView<K, V>
      reads this
    {
      ItemView(key, value, size, added, expiration)
    }

    predicate IsOutdated(now: Ticks)
      reads this
    {
      View().IsOutdated(now)
    }

    /** Construction stores its arguments and stamps the item with `now`. */
    constructor (key: K, item: V, expiration: Ticks, size: int, now: Ticks)
      ensures View() == ItemView(key, item, size, now, expiration)
      ensures expiration >= 0 ==> !IsOutdated(now)
    {
      this.key := key;
      this.value := item;
      this.added := now;
      this.expiration := expiration;
      this.size := size;
    }

    /** Writing the value refreshes the timestamp. */
    method SetValue(v: V, now: Ticks)
      modifies this
      ensures View() == old(View()).(value := v, added := now)
      ensures expiration >= 0 ==> !IsOutdated(now)
    {
      value := v;
      added := now;
    }

    /** Writing the size leaves the timestamp alone. */
    method SetSize(s: int)
      modifies this
      ensures View() == old(View()).(size := s)
    {
      size := s;
    }

    /** Writing the expiration leaves the timestamp alone. */
    method SetExpiration(e: Ticks)
      modifies this
      ensures View() == old(View()).(expiration := e)
    {
      expiration := e;
    }
  }

  /** The views of a list of items, position by position. */
  function ViewsOf<K, V>(s: seq<CacheItem<K, V>>): (r: seq<ItemView<K, V>>)
    reads s
    ensures |r| == |s|
    ensures forall i :: 0 <= i < |s| ==> r[i] == s[i].View()
  {
    seq(|s|, i requires 0 <= i < |s| reads s => s[i].View())
  }

  /** The constructor's argument checks: a null key or a null value is rejected. */
  method NewItem<K, V>(key: Option<K>, item: Option<V>, expiration: Ticks, size: int, now: Ticks)
    returns (r: Result<CacheItem<K, V>>)
    ensures r.Failure? <==> key.None? || item.None?
    ensures r.Failure? ==> r.error == ArgumentNull
    ensures r.Success? ==> fresh(r.value)
                           && r.value.View() == ItemView(key.value, item.value, size, now, expiration)
  {
    if key.None? {
      return Failure(ArgumentNull);
    }
    if item.None? {
      return Failure(ArgumentNull);
    }
    var it := new CacheItem(key.value, item.value, expiration, size, now);
    return Success(it);
  }
}
