/** Worked examples that pin the transitions down on concrete numbers. */
module Scenarios {
  import opened Errors
  import opened Configuration
  import opened CacheItems
  import opened ItemLists
  import opened CacheSpec
  import opened CacheProperties

  /** One hour, in 100-nanosecond ticks. */
  const Hour: Ticks := 36_000_000_000

  /** Size limit 100, default item size 10, removal fraction 0.5, one hour to live. */
  const Config: CacheConfiguration := CacheConfiguration(100, Hour, 10, Percentage(1, 2), 0)

  /** The cache after AddOrUpdate(i, i, size 10) at instant i, for i = 1 .. n in turn. */
  function Filled(n: nat): CacheState<int, int> {
    if n == 0 then Initial()
    else CacheSpec.AddOrUpdate(Filled(n - 1), Config, Some(n), Some(n), Hour, 10, n).0
  }

  /** The list those calls build while nothing is evicted: key i, value i, size 10, added at i. */
  function Loaded(n: nat): seq<ItemView<int, int>> {
    seq(n, i => ItemView(i + 1, i + 1, 10, i + 1, Hour))
  }

  lemma {:induction false} TotalSizeUniform(s: seq<ItemView<int, int>>, c: int)
    requires forall i :: 0 <= i < |s| ==> s[i].size == c
    ensures TotalSize(s) == c * |s|
  {
    if s != [] {
      TotalSizeUniform(s[..|s| - 1], c);
    }
  }

  lemma LoadedSliceSize(n: nat, a: nat, b: nat)
    requires a <= b <= n
    ensures TotalSize(Loaded(n)[a..b]) == 10 * (b - a)
  {
    TotalSizeUniform(Loaded(n)[a..b], 10);
  }

  lemma LoadedExtend(n: nat, m: nat)
    requires m <= n
    ensures Loaded(n)[m..] + [ItemView(n + 1, n + 1, 10, n + 1, Hour)] == Loaded(n + 1)[m..]
  {}

  lemma LoadedInv(n: nat)
    ensures Inv(CacheState(Loaded(n), 10 * n, false, 0), Config)
    ensures Ascending(Loaded(n))
  {
    TotalSizeUniform(Loaded(n), 10);
  }

  /** Below the limit, the call for key n just appends it. */
  lemma AppendStep(n: nat, st: CacheState<int, int>)
    requires 1 <= n <= 9 && st == CacheState(Loaded(n - 1), 10 * (n - 1), false, 0)
    ensures CacheSpec.AddOrUpdate(st, Config, Some(n), Some(n), Hour, 10, n).0 == CacheState(Loaded(n), 10 * n, false, 0)
  {
    LoadedInv(n - 1);
    AddOrUpdateAppendsAbsent(st, Config, n, n, Hour, 10, n);
    assert Loaded(n - 1) + [ItemView(n, n, 10, n, Hour)] == Loaded(n);
  }

  /** The n-th call, seen from the state the earlier calls left. */
  lemma FilledUnfold(n: nat, previous: CacheState<int, int>)
    requires 1 <= n <= 9 && previous == Filled(n - 1) == CacheState(Loaded(n - 1), 10 * (n - 1), false, 0)
    ensures Filled(n) == CacheState(Loaded(n), 10 * n, false, 0)
  {
    AppendStep(n, previous);
  }

  /** The first nine calls only append: the cache holds keys 1 .. n in order,
      CurrentSize is 10 n, and SizeLimitReached has not been raised. */
  lemma {:induction false} FilledBeforeLimit(n: nat)
    requires n <= 9
    ensures Filled(n) == CacheState(Loaded(n), 10 * n, false, 0)
  {
    if n > 0 {
      FilledBeforeLimit(n - 1);
      FilledUnfold(n, Filled(n - 1));
    }
  }

  /** At the tenth call nothing is outdated, so the first guard raises
      SizeLimitReached and keeps all nine items. */
  lemma FirstGuardKeepsAll(st: CacheState<int, int>)
    requires st == CacheState(Loaded(9), 90, false, 0)
    ensures OutdatedGuard(st, Config, 10, 10) == CacheState(Loaded(9), 90, false, 1)
  {
    LiveWhenNoneOutdated(Loaded(9), 10);
  }

  /** The second guard raises SizeLimitReached again and evicts
      trunc(9 * 0.5) = 4 items, oldest first. */
  lemma SecondGuardEvictsFour(st: CacheState<int, int>)
    requires st == CacheState(Loaded(9), 90, false, 1)
    ensures OldestGuard(st, Config, 10) == CacheState(Loaded(9)[4..], 50, false, 2)
  {
    LoadedInv(9);
    assert RemovalCount(9, Percentage(1, 2)) == 4;
    FlushOldestAscending(Notify(st), Percentage(1, 2));
    LoadedSliceSize(9, 0, 4);
  }

  /** Both guards fire at the tenth call. */
  lemma MakeRoomAtLimit(st: CacheState<int, int>)
    requires st == CacheState(Loaded(9), 90, false, 0)
    ensures MakeRoom(st, Config, 10, 10) == CacheState(Loaded(9)[4..], 50, false, 2)
  {
    FirstGuardKeepsAll(st);
    SecondGuardEvictsFour(OutdatedGuard(st, Config, 10, 10));
  }

  /** Key 10 is not yet present, so the tenth call is a plain Add. */
  lemma TenthCallAdds(st: CacheState<int, int>)
    requires st == CacheState(Loaded(9), 90, false, 0)
    ensures CacheSpec.AddOrUpdate(st, Config, Some(10), Some(10), Hour, 10, 10).0 == Add(st, Config, 10, 10, Hour, 10, 10)
  {
    KeyInKeysOf(Loaded(9), 10);
  }

  /** The tenth call reaches the limit (90 + 10 >= 100): SizeLimitReached is
      raised twice, nothing is outdated, and trunc(9 * 0.5) = 4 of the nine
      items already present are evicted, oldest first, before the new item goes
      in. Six items remain and CurrentSize is 60. */
  lemma TenthAddEvictsFourOldest()
    ensures Filled(10) == CacheState(Loaded(10)[4..], 60, false, 2)
  {
    var st := Filled(9);
    FilledBeforeLimit(9);
    TenthCallAdds(st);
    MakeRoomAtLimit(st);
    LoadedExtend(9, 4);
  }

  /** The six items left after the tenth call: keys 5 .. 10, in order. */
  lemma SurvivorsInv(st: CacheState<int, int>)
    requires st == CacheState(Loaded(10)[4..], 60, false, 2)
    ensures Inv(st, Config) && |st.items| == 6
    ensures forall i :: 0 <= i < 6 ==> st.items[i] == ItemView(i + 5, i + 5, 10, i + 5, Hour)
  {
    LoadedSliceSize(10, 4, 10);
    assert Loaded(10)[4..10] == Loaded(10)[4..];
  }

  /** Reading the ten keys back an instant later: keys 1 .. 4 give the caller's
      default, keys 5 .. 10 their values. */
  lemma TenthAddKeepsNewestSix(k: int)
    requires 1 <= k <= 10
    ensures var r := CacheSpec.Get(Filled(10), Some(k), Some(0), 11);
            r.1 == (if k <= 4 then Success(Some(0)) else Success(Some(k)))
  {
    TenthAddEvictsFourOldest();
    SurvivorsGet(Filled(10), k);
  }

  lemma SurvivorsGet(st: CacheState<int, int>, k: int)
    requires st == CacheState(Loaded(10)[4..], 60, false, 2)
    requires 1 <= k <= 10
    ensures CacheSpec.Get(st, Some(k), Some(0), 11).1 == (if k <= 4 then Success(Some(0)) else Success(Some(k)))
  {
    SurvivorsInv(st);
    GetSpec(st, Config, k, Some(0), 11);
    if k > 4 {
      assert st.items[k - 5] == ItemView(k, k, 10, k, Hour);
    } else {
      assert forall i :: 0 <= i < |st.items| ==> st.items[i].key != k;
    }
  }

  /** With a removal fraction of zero and nothing outdated, an add goes through
      even though it takes CurrentSize past the limit. */
  lemma ZeroFractionOverfills()
    ensures var cfg := CacheConfiguration(10, Hour, 1, Percentage(0, 1), 0);
            var st := CacheState([ItemView(1, 1, 9, 0, Hour)], 9, false, 0);
            var r := CacheSpec.AddOrUpdate(st, cfg, Some(2), Some(2), Hour, 5, 1);
            r.1 == Pass && r.0.currentSize == 14 && |r.0.items| == 2 && r.0.notifications == 2
  {
    var cfg := CacheConfiguration(10, Hour, 1, Percentage(0, 1), 0);
    var l := [ItemView(1, 1, 9, 0, Hour)];
    var st := CacheState(l, 9, false, 0);
    LiveWhenNoneOutdated(l, 1);
    assert FlushOutdated(Notify(st), 1) == CacheState(l, 9, false, 1);
    assert RemovalCount(1, Percentage(0, 1)) == 0;
    assert FlushOldest(CacheState(l, 9, false, 2), Percentage(0, 1)) == CacheState(l, 9, false, 2);
    assert MakeRoom(st, cfg, 5, 1) == CacheState(l, 9, false, 2);
    KeyInKeysOf(l, 2);
  }
}
