/** Functions over the cache's ordered list of items, and the facts about them
    that the eviction paths rely on. */
module ItemLists {
  import opened Errors
  import opened Configuration
  import opened CacheItems

  /** The sum of the sizes of the items. */
  function TotalSize<K, V>(s: seq<ItemView<K, V>>): int
  {
    if s == [] then 0 else TotalSize(s[..|s| - 1]) + s[|s| - 1].size
  }

  lemma {:induction false} TotalSizeConcat<K, V>(a: seq<ItemView<K, V>>, b: seq<ItemView<K, V>>)
    ensures TotalSize(a + b) == TotalSize(a) + TotalSize(b)
  {
    if b == [] {
      assert a + b == a;
    } else {
      var c := a + b;
      assert c[..|c| - 1] == a + b[..|b| - 1];
      TotalSizeConcat(a, b[..|b| - 1]);
    }
  }

  /** The list without its i-th element (IList.Remove of that element). */
  function RemoveAt<T>(s: seq<T>, i: nat): (r: seq<T>)
    requires i < |s|
    ensures |r| == |s| - 1
    ensures forall j :: 0 <= j < i ==> r[j] == s[j]
    ensures forall j :: i <= j < |r| ==> r[j] == s[j + 1]
  {
    s[..i] + s[i + 1..]
  }

  /** Removing an element only removes: whatever is left was there before. */
  lemma RemoveAtMembers<T>(s: seq<T>, i: nat)
    requires i < |s|
    ensures forall x :: x in RemoveAt(s, i) ==> x in s
  {
    var r := RemoveAt(s, i);
    forall x | x in r ensures x in s {
      var j :| 0 <= j < |r| && r[j] == x;
      if j < i {
        assert s[j] == x;
      } else {
        assert s[j + 1] == x;
      }
    }
  }

  lemma ViewsOfRemoveAt<K, V>(s: seq<CacheItem<K, V>>, i: nat)
    requires i < |s|
    ensures ViewsOf(RemoveAt(s, i)) == RemoveAt(ViewsOf(s), i)
  {
    var a, b := ViewsOf(RemoveAt(s, i)), RemoveAt(ViewsOf(s), i);
    assert forall j :: 0 <= j < |a| ==> a[j] == b[j];
  }

  /** Removing an item lowers the total by exactly that item's size. */
  lemma TotalSizeRemoveAt<K, V>(s: seq<ItemView<K, V>>, i: nat)
    requires i < |s|
    ensures TotalSize(RemoveAt(s, i)) == TotalSize(s) - s[i].size
  {
    var a, b := s[..i], s[i + 1..];
    var c := RemoveAt(s, i);
    assert s == (a + [s[i]]) + b;
    assert c == a + b;
    calc {
      TotalSize(s);
      { TotalSizeConcat(a + [s[i]], b); }
      TotalSize(a + [s[i]]) + TotalSize(b);
      { TotalSizeAppend(a, s[i]); }
      TotalSize(a) + s[i].size + TotalSize(b);
      { TotalSizeConcat(a, b); }
      TotalSize(c) + s[i].size;
    }
  }

  /** Appending an item raises the total by exactly that item's size. */
  lemma TotalSizeAppend<K, V>(s: seq<ItemView<K, V>>, x: ItemView<K, V>)
    ensures TotalSize(s + [x]) == TotalSize(s) + x.size
  {
    assert (s + [x])[..|s|] == s;
  }

  /** Replacing one item changes the total by the difference of the two sizes. */
  lemma TotalSizeReplace<K, V>(s: seq<ItemView<K, V>>, i: nat, x: ItemView<K, V>)
    requires i < |s|
    ensures TotalSize(s[i := x]) == TotalSize(s) - s[i].size + x.size
  {
    TotalSizeRemoveAt(s, i);
    TotalSizeRemoveAt(s[i := x], i);
    assert RemoveAt(s, i) == RemoveAt(s[i := x], i);
  }

  function KeysOf<K, V>(s: seq<ItemView<K, V>>): (r: seq<K>)
    ensures |r| == |s|
    ensures forall i :: 0 <= i < |s| ==> r[i] == s[i].key
  {
    seq(|s|, i requires 0 <= i < |s| => s[i].key)
  }

  /** The key-uniqueness invariant: no two items share a key. */
  ghost predicate KeysUnique<K, V>(s: seq<ItemView<K, V>>)
  {
    forall i, j :: 0 <= i < j < |s| ==> s[i].key != s[j].key
  }

  /** The position of the first occurrence of `k` (the lookup behind SingleOrDefault). */
  function IndexOf<K(==)>(keys: seq<K>, k: K): (r: Option<nat>)
    ensures r.None? <==> k !in keys
    ensures r.Some? ==> r.value < |keys| && keys[r.value] == k
    ensures r.Some? ==> forall j :: 0 <= j < r.value ==> keys[j] != k
  {
    if keys == [] then None
    else if keys[0] == k then Some(0)
    else
      match IndexOf(keys[1..], k)
      case None => None
      case Some(i) => Some(i + 1)
  }

  /** With unique keys, the lookup finds the one item that carries the key. */
  lemma IndexOfUnique<K, V>(s: seq<ItemView<K, V>>, i: nat)
    requires KeysUnique(s) && i < |s|
    ensures IndexOf(KeysOf(s), s[i].key) == Some(i)
  {
    assert KeysOf(s)[i] == s[i].key;
  }

  lemma KeysUniqueRemoveAt<K, V>(s: seq<ItemView<K, V>>, i: nat)
    requires KeysUnique(s) && i < |s|
    ensures KeysUnique(RemoveAt(s, i))
    ensures s[i].key !in KeysOf(RemoveAt(s, i))
  {
    var r := RemoveAt(s, i);
    forall a, b | 0 <= a < b < |r| ensures r[a].key != r[b].key {
      var a' := if a < i then a else a + 1;
      var b' := if b < i then b else b + 1;
      assert r[a] == s[a'] && r[b] == s[b'];
    }
  }

  /** Keys present in a list drawn from `s` are keys of `s`. */
  lemma KeysOfSubset<K, V>(r: seq<ItemView<K, V>>, s: seq<ItemView<K, V>>, k: K)
    requires forall x :: x in r ==> x in s
    requires k in KeysOf(r)
    ensures k in KeysOf(s)
  {
    var j :| 0 <= j < |r| && KeysOf(r)[j] == k;
    assert r[j] in s;
    var j' :| 0 <= j' < |s| && s[j'] == r[j];
    assert KeysOf(s)[j'] == k;
  }

  /** A key occurs in the key list exactly when some item carries it. */
  lemma KeyInKeysOf<K, V>(s: seq<ItemView<K, V>>, k: K)
    ensures k in KeysOf(s) <==> exists i :: 0 <= i < |s| && s[i].key == k
  {
    if k in KeysOf(s) {
      var i :| 0 <= i < |s| && KeysOf(s)[i] == k;
      assert s[i].key == k;
    }
    if exists i :: 0 <= i < |s| && s[i].key == k {
      var i :| 0 <= i < |s| && s[i].key == k;
      assert KeysOf(s)[i] == k;
    }
  }

  /** Appending an item under a key not yet present keeps keys unique and makes
      the new item the one the lookup finds. */
  lemma AppendFreshKey<K, V>(s: seq<ItemView<K, V>>, x: ItemView<K, V>)
    requires KeysUnique(s) && x.key !in KeysOf(s)
    ensures KeysUnique(s + [x])
    ensures IndexOf(KeysOf(s + [x]), x.key) == Some(|s|)
  {
    var t := s + [x];
    forall a, b | 0 <= a < b < |t| ensures t[a].key != t[b].key {
      assert t[a] == s[a];
      if b == |s| {
        assert KeysOf(s)[a] == s[a].key;
      } else {
        assert t[b] == s[b];
      }
    }
    IndexOfUnique(t, |s|);
  }

  /** Overwriting an item with one under the same key leaves the key list as it
      was, so keys stay unique and the lookup still finds that position. */
  lemma ReplaceSameKey<K, V>(s: seq<ItemView<K, V>>, i: nat, x: ItemView<K, V>)
    requires KeysUnique(s) && i < |s| && x.key == s[i].key
    ensures KeysOf(s[i := x]) == KeysOf(s)
    ensures KeysUnique(s[i := x])
    ensures IndexOf(KeysOf(s[i := x]), x.key) == Some(i)
  {
    var t := s[i := x];
    assert forall j :: 0 <= j < |t| ==> KeysOf(t)[j] == KeysOf(s)[j];
    assert KeysUnique(t) by {
      forall a, b | 0 <= a < b < |t| ensures t[a].key != t[b].key {
        assert KeysOf(t)[a] == KeysOf(s)[a] && KeysOf(t)[b] == KeysOf(s)[b];
      }
    }
    IndexOfUnique(t, i);
  }

  /** The items that are not outdated at `now`, in their original order. */
  function Live<K, V>(s: seq<ItemView<K, V>>, now: Ticks): seq<ItemView<K, V>>
  {
    if s == [] then []
    else if s[|s| - 1].IsOutdated(now) then Live(s[..|s| - 1], now)
    else Live(s[..|s| - 1], now) + [s[|s| - 1]]
  }

  /** When nothing is outdated, filtering keeps the whole list. */
  lemma {:induction false} LiveWhenNoneOutdated<K, V>(s: seq<ItemView<K, V>>, now: Ticks)
    requires forall i :: 0 <= i < |s| ==> !s[i].IsOutdated(now)
    ensures Live(s, now) == s
    ensures OutdatedSize(s, now) == 0
  {
    if s != [] {
      var p := s[..|s| - 1];
      LiveWhenNoneOutdated(p, now);
      assert p + [s[|s| - 1]] == s;
    }
  }

  /** The sum of the sizes of the items outdated at `now`. */
  function OutdatedSize<K, V>(s: seq<ItemView<K, V>>, now: Ticks): int
  {
    if s == [] then 0
    else if s[|s| - 1].IsOutdated(now) then OutdatedSize(s[..|s| - 1], now) + s[|s| - 1].size
    else OutdatedSize(s[..|s| - 1], now)
  }

  lemma {:induction false} LiveMembers<K, V>(s: seq<ItemView<K, V>>, now: Ticks)
    ensures forall x :: x in Live(s, now) ==> x in s && !x.IsOutdated(now)
    ensures forall x :: x in s && !x.IsOutdated(now) ==> x in Live(s, now)
  {
    if s != [] {
      var p, last := s[..|s| - 1], s[|s| - 1];
      assert s == p + [last];
      LiveMembers(p, now);
    }
  }

  /** One step of a single in-place pass that filters out outdated items:
      `c` is the list after deciding the first m original items, and i is the
      position of original item m in it. */
  lemma LiveStep<K, V>(original: seq<ItemView<K, V>>, m: nat, now: Ticks, c: seq<ItemView<K, V>>, i: nat)
    requires m < |original|
    requires c == Live(original[..m], now) + original[m..]
    requires i == |Live(original[..m], now)|
    ensures i < |c| && c[i] == original[m]
    ensures original[m].IsOutdated(now) ==>
              && RemoveAt(c, i) == Live(original[..m + 1], now) + original[m + 1..]
              && i == |Live(original[..m + 1], now)|
              && OutdatedSize(original[..m + 1], now) == OutdatedSize(original[..m], now) + original[m].size
    ensures !original[m].IsOutdated(now) ==>
              && c == Live(original[..m + 1], now) + original[m + 1..]
              && i + 1 == |Live(original[..m + 1], now)|
              && OutdatedSize(original[..m + 1], now) == OutdatedSize(original[..m], now)
  {
    var p := original[..m + 1];
    assert p[..m] == original[..m];
    assert p[m] == original[m];
    var l := Live(original[..m], now);
    assert c[i] == original[m];
    if original[m].IsOutdated(now) {
      assert RemoveAt(c, i) == l + original[m + 1..];
    } else {
      assert c == (l + [original[m]]) + original[m + 1..];
    }
  }

  lemma {:induction false} LiveSize<K, V>(s: seq<ItemView<K, V>>, now: Ticks)
    ensures TotalSize(Live(s, now)) == TotalSize(s) - OutdatedSize(s, now)
  {
    if s != [] {
      var p, last := s[..|s| - 1], s[|s| - 1];
      LiveSize(p, now);
      if !last.IsOutdated(now) {
        TotalSizeAppend(Live(p, now), last);
      }
    }
  }

  lemma {:induction false} LiveKeysUnique<K, V>(s: seq<ItemView<K, V>>, now: Ticks)
    requires KeysUnique(s)
    ensures KeysUnique(Live(s, now))
  {
    if s != [] {
      var p, last := s[..|s| - 1], s[|s| - 1];
      LiveKeysUnique(p, now);
      if !last.IsOutdated(now) {
        var lp := Live(p, now);
        LiveMembers(p, now);
        var l := lp + [last];
        forall a, b | 0 <= a < b < |l| ensures l[a].key != l[b].key {
          assert l[a] == lp[a];
          if b == |l| - 1 {
            assert lp[a] in lp;
            assert lp[a] in p;
            var j :| 0 <= j < |p| && p[j] == lp[a];
            assert s[j] == lp[a];
          } else {
            assert l[b] == lp[b];
          }
        }
      }
    }
  }

  /** Filtering keeps every live item and nothing else, lowers the total by
      exactly the sizes of the outdated ones, and keeps keys unique. */
  lemma LiveProperties<K, V>(s: seq<ItemView<K, V>>, now: Ticks)
    ensures forall x :: x in Live(s, now) ==> x in s && !x.IsOutdated(now)
    ensures forall x :: x in s && !x.IsOutdated(now) ==> x in Live(s, now)
    ensures TotalSize(Live(s, now)) == TotalSize(s) - OutdatedSize(s, now)
    ensures KeysUnique(s) ==> KeysUnique(Live(s, now))
  {
    LiveMembers(s, now);
    LiveSize(s, now);
    if KeysUnique(s) {
      LiveKeysUnique(s, now);
    }
  }

  /** The position of the item with the earliest timestamp; among equal
      timestamps the first one, as a stable OrderBy puts it first. */
  function OldestIndex<K, V>(s: seq<ItemView<K, V>>): (i: nat)
    requires |s| > 0
    ensures i < |s|
    ensures forall j :: 0 <= j < |s| ==> s[i].added <= s[j].added
    ensures forall j :: 0 <= j < i ==> s[j].added > s[i].added
  {
    if |s| == 1 then 0
    else
      var i := OldestIndex(s[..|s| - 1]);
      if s[|s| - 1].added < s[i].added then |s| - 1 else i
  }

  /** What is left after removing the n oldest items one at a time. */
  function EvictOldest<K, V>(s: seq<ItemView<K, V>>, n: nat): (r: seq<ItemView<K, V>>)
    requires n <= |s|
    ensures |r| == |s| - n
  {
    if n == 0 then s
    else
      var p := EvictOldest(s, n - 1);
      RemoveAt(p, OldestIndex(p))
  }

  /** The n oldest items, in the order they are removed. */
  function Evicted<K, V>(s: seq<ItemView<K, V>>, n: nat): (r: seq<ItemView<K, V>>)
    requires n <= |s|
    ensures |r| == n
  {
    if n == 0 then []
    else
      var p := EvictOldest(s, n - 1);
      Evicted(s, n - 1) + [p[OldestIndex(p)]]
  }

  lemma RemoveAtMultiset<T>(s: seq<T>, i: nat)
    requires i < |s|
    ensures multiset(s) == multiset(RemoveAt(s, i)) + multiset([s[i]])
  {
    assert s == (s[..i] + [s[i]]) + s[i + 1..];
  }

  lemma {:induction false} EvictedMultiset<K, V>(s: seq<ItemView<K, V>>, n: nat)
    requires n <= |s|
    ensures multiset(EvictOldest(s, n)) + multiset(Evicted(s, n)) == multiset(s)
  {
    if n > 0 {
      EvictedMultiset(s, n - 1);
      var p := EvictOldest(s, n - 1);
      var i := OldestIndex(p);
      var e := Evicted(s, n - 1);
      var q := RemoveAt(p, i);
      assert EvictOldest(s, n) == q;
      assert Evicted(s, n) == e + [p[i]];
      RemoveAtMultiset(p, i);
      calc {
        multiset(q) + multiset(e + [p[i]]);
        multiset(q) + (multiset(e) + multiset([p[i]]));
        (multiset(q) + multiset([p[i]])) + multiset(e);
        multiset(p) + multiset(e);
      }
      assert multiset(EvictOldest(s, n)) + multiset(Evicted(s, n)) == multiset(s);
    } else {
      assert EvictOldest(s, n) == s && Evicted(s, n) == [];
      assert multiset(EvictOldest(s, n)) + multiset(Evicted(s, n)) == multiset(s);
    }
  }

  lemma {:induction false} EvictOldestSubset<K, V>(s: seq<ItemView<K, V>>, n: nat)
    requires n <= |s|
    ensures forall y :: y in EvictOldest(s, n) ==> y in s
  {
    if n > 0 {
      EvictOldestSubset(s, n - 1);
    }
  }

  lemma {:induction false} EvictedBeforeKept<K, V>(s: seq<ItemView<K, V>>, n: nat)
    requires n <= |s|
    ensures forall a, b :: 0 <= a < n && 0 <= b < |s| - n ==>
      Evicted(s, n)[a].added <= EvictOldest(s, n)[b].added
  {
    if n > 0 {
      EvictedBeforeKept(s, n - 1);
      var p := EvictOldest(s, n - 1);
      var e := Evicted(s, n - 1);
      var i := OldestIndex(p);
      var r, q := e + [p[i]], RemoveAt(p, i);
      assert Evicted(s, n) == r;
      assert EvictOldest(s, n) == q;
      forall a, b | 0 <= a < n && 0 <= b < |s| - n ensures r[a].added <= q[b].added {
        var b' := if b < i then b else b + 1;
        assert q[b] == p[b'];
        if a < n - 1 {
          assert r[a] == e[a];
        }
      }
    }
  }

  lemma {:induction false} EvictedAscending<K, V>(s: seq<ItemView<K, V>>, n: nat)
    requires n <= |s|
    ensures forall a, b :: 0 <= a < b < n ==> Evicted(s, n)[a].added <= Evicted(s, n)[b].added
  {
    if n > 0 {
      EvictedAscending(s, n - 1);
      EvictedBeforeKept(s, n - 1);
      var p := EvictOldest(s, n - 1);
      var e := Evicted(s, n - 1);
      var i := OldestIndex(p);
      var r := e + [p[i]];
      assert Evicted(s, n) == r;
      forall a, b | 0 <= a < b < n ensures r[a].added <= r[b].added {
        assert r[a] == e[a];
        if b < n - 1 {
          assert r[b] == e[b];
        }
      }
    }
  }

  lemma {:induction false} EvictedSize<K, V>(s: seq<ItemView<K, V>>, n: nat)
    requires n <= |s|
    ensures TotalSize(EvictOldest(s, n)) + TotalSize(Evicted(s, n)) == TotalSize(s)
  {
    if n > 0 {
      EvictedSize(s, n - 1);
      var p := EvictOldest(s, n - 1);
      var i := OldestIndex(p);
      assert EvictOldest(s, n) == RemoveAt(p, i);
      var e := Evicted(s, n - 1);
      assert Evicted(s, n) == e + [p[i]];
      TotalSizeRemoveAt(p, i);
      TotalSizeAppend(e, p[i]);
      assert TotalSize(EvictOldest(s, n)) + TotalSize(Evicted(s, n)) == TotalSize(p) + TotalSize(e);
    } else {
      assert EvictOldest(s, n) == s && Evicted(s, n) == [];
    }
  }

  lemma {:induction false} EvictKeysUnique<K, V>(s: seq<ItemView<K, V>>, n: nat)
    requires n <= |s| && KeysUnique(s)
    ensures KeysUnique(EvictOldest(s, n))
  {
    if n > 0 {
      EvictKeysUnique(s, n - 1);
      var p := EvictOldest(s, n - 1);
      KeysUniqueRemoveAt(p, OldestIndex(p));
    }
  }

  /** Timestamps strictly increase along the list, as they do when items are
      only ever appended with a clock that moves forward. */
  ghost predicate Ascending<K, V>(s: seq<ItemView<K, V>>) {
    forall i, j :: 0 <= i < j < |s| ==> s[i].added < s[j].added
  }

  lemma OldestIndexAscending<K, V>(s: seq<ItemView<K, V>>)
    requires Ascending(s) && |s| > 0
    ensures OldestIndex(s) == 0
  {}

  lemma AscendingSuffix<K, V>(s: seq<ItemView<K, V>>, m: nat)
    requires Ascending(s) && m <= |s|
    ensures Ascending(s[m..])
  {
    var p := s[m..];
    forall i, j | 0 <= i < j < |p| ensures p[i].added < p[j].added {
      assert p[i] == s[m + i] && p[j] == s[m + j];
    }
  }

  /** On a list in insertion order, evicting n items leaves all but its first n. */
  lemma {:induction false} EvictOldestAscending<K, V>(s: seq<ItemView<K, V>>, n: nat)
    requires Ascending(s) && n <= |s|
    ensures EvictOldest(s, n) == s[n..]
  {
    if n > 0 {
      EvictOldestAscending(s, n - 1);
      var p := s[n - 1..];
      AscendingSuffix(s, n - 1);
      OldestIndexAscending(p);
      assert EvictOldest(s, n) == RemoveAt(p, 0) == s[n..];
    }
  }

  /** One more eviction removes the oldest item left and adds its size to the evicted total. */
  lemma EvictOneMore<K, V>(s: seq<ItemView<K, V>>, n: nat)
    requires n < |s|
    ensures EvictOldest(s, n + 1) == RemoveAt(EvictOldest(s, n), OldestIndex(EvictOldest(s, n)))
    ensures TotalSize(Evicted(s, n + 1))
         == TotalSize(Evicted(s, n)) + EvictOldest(s, n)[OldestIndex(EvictOldest(s, n))].size
  {
    var p := EvictOldest(s, n);
    TotalSizeAppend(Evicted(s, n), p[OldestIndex(p)]);
  }

  lemma EvictedStep<K, V>(s: seq<ItemView<K, V>>, n: nat)
    requires 0 < n <= |s| && EvictOldest(s, n - 1) == s[n - 1..] && OldestIndex(s[n - 1..]) == 0
    ensures Evicted(s, n) == Evicted(s, n - 1) + [s[n - 1]]
  {
    var p := s[n - 1..];
    assert p[0] == s[n - 1];
  }

  lemma PrefixStep<T>(s: seq<T>, n: nat)
    requires 0 < n <= |s|
    ensures s[..n] == s[..n - 1] + [s[n - 1]]
  {}

  /** On a list in insertion order, the n items evicted are its first n. */
  lemma {:induction false} EvictedAscendingPrefix<K, V>(s: seq<ItemView<K, V>>, n: nat)
    requires Ascending(s) && n <= |s|
    ensures Evicted(s, n) == s[..n]
  {
    if n > 0 {
      EvictedAscendingPrefix(s, n - 1);
      EvictOldestAscending(s, n - 1);
      AscendingSuffix(s, n - 1);
      OldestIndexAscending(s[n - 1..]);
      EvictedStep(s, n);
      PrefixStep(s, n);
    } else {
      assert Evicted(s, 0) == [] == s[..0];
    }
  }

  /** Evicting n items splits the list into the n items with the earliest
      timestamps, removed in ascending timestamp order, and the rest; the sizes
      of the two parts add up to the original total, and keys stay unique. */
  lemma EvictOldestProperties<K, V>(s: seq<ItemView<K, V>>, n: nat)
    requires n <= |s|
    ensures multiset(EvictOldest(s, n)) + multiset(Evicted(s, n)) == multiset(s)
    ensures forall y :: y in EvictOldest(s, n) ==> y in s
    ensures forall a, b :: 0 <= a < n && 0 <= b < |s| - n ==>
      Evicted(s, n)[a].added <= EvictOldest(s, n)[b].added
    ensures forall a, b :: 0 <= a < b < n ==> Evicted(s, n)[a].added <= Evicted(s, n)[b].added
    ensures TotalSize(EvictOldest(s, n)) + TotalSize(Evicted(s, n)) == TotalSize(s)
    ensures KeysUnique(s) ==> KeysUnique(EvictOldest(s, n))
  {
    EvictedMultiset(s, n);
    EvictOldestSubset(s, n);
    EvictedBeforeKept(s, n);
    EvictedAscending(s, n);
    EvictedSize(s, n);
    if KeysUnique(s) {
      EvictKeysUnique(s, n);
    }
  }
}
