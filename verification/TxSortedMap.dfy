/** core/tx_list.go, `txSortedMap`: a nonce map with a heap index and a cached order,
    shown to behave as the plain map `items`. */
module TxSortedMaps {
  import opened Heaps
  import opened TxTypes

  const NonceKey: nat -> int := (n: nat) => n
  const TxNonceKey: Tx -> int := (tx: Tx) => tx.nonce

  /** The index is a duplicate-free min-heap of exactly the stored nonces. */
  ghost predicate Indexed(s: seq<nat>, m: Items) {
    Keyed(m) && Ordered(s, NonceKey) && multiset(s) == multiset(m.Keys)
  }

  /** A present cache is the nonce-sorted contents. */
  ghost predicate Cached(cache: Option<seq<Tx>>, m: Items) {
    cache.Some? ==> SortedContents(cache.value, m)
  }

  /** A present cache without its first (last) k entries is the nonce-sorted contents. */
  ghost predicate CachedFrom(cache: Option<seq<Tx>>, k: nat, m: Items) {
    cache.Some? ==> k <= |cache.value| && SortedContents(cache.value[k..], m)
  }

  ghost predicate CachedUpTo(cache: Option<seq<Tx>>, k: nat, m: Items) {
    cache.Some? ==> k <= |cache.value| && SortedContents(cache.value[..|cache.value| - k], m)
  }

  /** The first `size` entries of a sorted index are the keys of m. */
  ghost predicate SortedKeys(sorted: seq<nat>, size: nat, m: Items) {
    && size <= |sorted| && NonDecreasing(sorted, NonceKey)
    && multiset(sorted[..size]) == multiset(m.Keys)
  }

  /** The heap index s of m has the least nonce of m at its root. */
  ghost predicate Rooted(s: seq<nat>, m: Items) {
    |s| == |m| && (|s| > 0 ==> IsLeast(m, s[0]))
  }

  /** Everything of m below `bound` has been handed out in order; `rest` is what remains. */
  ghost predicate HandedOut(m: Items, bound: nat, done: seq<Tx>, rest: Items) {
    rest == From(m, bound) && SortedContents(done, Below(m, bound))
  }

  /** tx was the least entry, at nonce n, of m; m' is what it leaves. */
  ghost predicate Popped(m: Items, n: nat, tx: Tx, m': Items) {
    IsLeast(m, n) && n == tx.nonce && m[n] == tx && m' == m - {n}
  }

  /** Filtering m with `test`: the nonces in `todo` are still to be looked at. */
  ghost predicate Filtering(m: Items, test: Tx -> bool, todo: set<nat>, removed: seq<Tx>, kept: Items) {
    && Keyed(m) && PartOf(kept, m)
    && (forall n :: n in m && n !in kept ==> test(m[n]))
    && (forall n :: n in kept && n !in todo ==> !test(m[n]))
    && Enumerates(removed, m - kept.Keys)
  }

  /** Capping m at t entries: the highest nonces go one by one, along a sorted index. */
  ghost predicate Capping(m: Items, t: nat, drops: seq<Tx>, kept: Items, sorted: seq<nat>, size: nat) {
    && Keyed(m) && PartOf(kept, m) && |kept| == size && SortedKeys(sorted, size, kept)
    && Lowest(kept, t) == Lowest(m, t)
    && Enumerates(drops, m - kept.Keys)
  }

  class TxSortedMap {
    var items: Items
    const index: MinHeap<nat>
    var cache: Option<seq<Tx>>

    ghost predicate Valid()
      reads this, index
    {
      index.key == NonceKey && Indexed(index.s, items) && Cached(cache, items)
    }

    constructor ()
      ensures Valid() && items == map[] && fresh(index)
    {
      items := map[];
      index := new MinHeap<nat>(NonceKey);
      cache := None;
    }

    function Get(nonce: nat): (r: Option<Tx>)
      reads this
      ensures r.Some? <==> nonce in items
      ensures r.Some? ==> r.value == items[nonce]
    {
      if nonce in items then Some(items[nonce]) else None
    }

    method Put(tx: Tx)
      requires Valid()
      modifies this, index
      ensures Valid() && items == old(items)[tx.nonce := tx]
    {
      hide Indexed, Cached;
      IndexParts(index.s, items);
      if tx.nonce !in items {
        index.Push(tx.nonce);
      }
      IndexPut(old(index.s), items, index.s, tx);
      NotCached(items[tx.nonce := tx]);
      items := items[tx.nonce := tx];
      cache := None;
    }

    /** Pop the root of the index together with its transaction. */
    method PopLeast() returns (tx: Tx)
      requires index.key == NonceKey && Indexed(index.s, items) && |index.s| > 0
      modifies this`items, index
      ensures Indexed(index.s, items)
      ensures Popped(old(items), old(index.s[0]), tx, items) && |items| == |old(items)| - 1
    {
      hide Indexed;
      IndexRoot(index.s, items);
      IndexParts(index.s, items);
      var nonce := index.Pop();
      IndexTake(old(index.s), items, index.s, nonce);
      tx := items[nonce];
      items := items - {nonce};
    }

    method Forward(threshold: nat) returns (removed: seq<Tx>)
      requires Valid()
      modifies this, index
      ensures Valid() && items == From(old(items), threshold)
      ensures SortedContents(removed, Below(old(items), threshold))
    {
      hide Indexed, From, Below, SortedContents, Popped, Rooted, HandedOut, CachedFrom, Cached;
      CachedWhole(cache, items);
      removed := [];
      ghost var m: Items, bound: nat := items, 0;
      BoundZero(m, 0);
      IndexRoot(index.s, items);
      while |index.s| > 0 && index.s[0] < threshold
        invariant Indexed(index.s, items) && Rooted(index.s, items) && bound <= threshold
        invariant HandedOut(m, bound, removed, items)
        invariant cache == old(cache)
        invariant CachedFrom(cache, |removed|, items)
        decreases |items|
      {
        ghost var rest, nonce := items, index.s[0];
        var tx := PopLeast();
        CachedPopFront(cache, |removed|, rest, nonce, tx, items);
        AdvanceBound(removed, m, bound, rest, nonce, tx, items);
        removed, bound := removed + [tx], nonce + 1;
        IndexRoot(index.s, items);
      }
      CachedSlice(cache, |removed|, items);
      if cache.Some? {
        cache := Some(cache.value[|removed|..]);
      }
      BoundReached(m, bound, threshold, removed, items, index.s);
    }

    /** Removes every transaction the filter accepts; the map is visited in any order. */
    method Filter(filter: Tx -> bool) returns (removed: seq<Tx>)
      requires Valid()
      modifies this, index
      ensures Valid()
      ensures items == WhereNot(old(items), filter) && Enumerates(removed, Where(old(items), filter))
    {
      hide Indexed, Cached, Filtering, WhereNot, Where, Enumerates;
      removed := [];
      var todo := items.Keys;
      ghost var m := items;
      FilterStart(m, filter);
      IndexParts(index.s, items);
      while todo != {}
        invariant todo <= items.Keys && cache == old(cache) && index.s == old(index.s)
        invariant Filtering(m, filter, todo, removed, items)
        decreases todo
      {
        var nonce :| nonce in todo;
        FilterStep(m, filter, todo, removed, items, nonce);
        todo := todo - {nonce};
        var tx := items[nonce];
        if filter(tx) {
          removed, items := removed + [tx], items - {nonce};
        }
      }
      FilterDone(m, filter, removed, items);
      if |removed| > 0 {
        Reindex();
        NotCached(items);
        cache := None;
      }
    }

    /** Rebuild the heap from the keys of the map. */
    method Reindex()
      requires index.key == NonceKey && Keyed(items)
      modifies index
      ensures Indexed(index.s, items)
    {
      hide Indexed, Lists;
      var s := [];
      var todo := items;
      ListsNone(items);
      while todo != map[]
        invariant PartOf(todo, items) && Lists(s, items - todo.Keys)
        decreases |todo|
      {
        var nonce :| nonce in todo;
        ListsMore(s, items, todo, nonce);
        todo := todo - {nonce};
        s := s + [nonce];
      }
      assert items - todo.Keys == items;
      Heapify(s);
    }

    method Cap(threshold: nat) returns (drops: seq<Tx>)
      requires Valid()
      modifies this, index
      ensures Valid() && items == Lowest(old(items), threshold)
      ensures Enumerates(drops, old(items) - items.Keys)
    {
      hide Indexed, Lists, Capping, CachedUpTo, Cached, Lowest, Enumerates, NonDecreasing;
      if |items| <= threshold {
        EnumerateNone(items);
        LowestAll(items, threshold);
        return [];
      }
      IndexParts(index.s, items);
      var sorted := Sort(index.s, NonceKey);
      CapStart(items, threshold, index.s, sorted);
      CachedWhole(cache, items);
      drops := DropHighest(sorted, threshold);
      CapDone(old(items), drops, items, sorted, threshold);
      Heapify(sorted[..threshold]);
      CachedSlice(cache, |drops|, items);
      if cache.Some? {
        cache := Some(cache.value[..|cache.value| - |drops|]);
      }
    }

    /** Drop transactions along a sorted index, highest nonce first, until `threshold` remain. */
    method DropHighest(sorted: seq<nat>, threshold: nat) returns (drops: seq<Tx>)
      requires threshold <= |items| == |sorted| && Capping(items, threshold, [], items, sorted, |sorted|)
      requires CachedUpTo(cache, 0, items)
      modifies this`items
      ensures Capping(old(items), threshold, drops, items, sorted, threshold) && CachedUpTo(cache, |drops|, items)
    {
      hide Capping, CachedUpTo, IsGreatest;
      drops := [];
      var size := |items|;
      while size > threshold
        invariant threshold <= size <= |sorted|
        invariant Capping(old(items), threshold, drops, items, sorted, size) && CachedUpTo(cache, |drops|, items)
      {
        var nonce := sorted[size - 1];
        CapStep(old(items), threshold, drops, items, sorted, size);
        CachedPopBack(cache, |drops|, items, nonce);
        drops, items := drops + [items[nonce]], items - {nonce};
        size := size - 1;
      }
    }

    /** Take s as the new index slice and restore the heap order on it. */
    method Heapify(s: seq<nat>)
      requires Lists(s, items) && index.key == NonceKey
      modifies index
      ensures Indexed(index.s, items)
    {
      index.s := s;
      index.Init();
    }

    method IndexOf(nonce: nat) returns (i: nat)
      requires nonce in index.s
      ensures i < |index.s| && index.s[i] == nonce
    {
      i := 0;
      while index.s[i] != nonce
        invariant 0 <= i < |index.s| && nonce in index.s[i..]
        decreases |index.s| - i
      {
        assert index.s[i..] == [index.s[i]] + index.s[i + 1..];
        i := i + 1;
      }
    }

    method Remove(nonce: nat) returns (found: bool)
      requires Valid()
      modifies this, index
      ensures Valid() && found == (nonce in old(items)) && items == old(items) - {nonce}
    {
      if nonce !in items {
        return false;
      }
      IndexParts(index.s, items);
      assert nonce in multiset(index.s);
      var i := IndexOf(nonce);
      var _ := index.Remove(i);
      hide Indexed, Cached;
      IndexTake(old(index.s), items, index.s, nonce);
      items := items - {nonce};
      NotCached(items);
      cache := None;
      found := true;
    }

    /** The maximal consecutive run from the smallest nonce, if that nonce is not above start. */
    method Ready(start: nat) returns (ready: seq<Tx>)
      requires Valid()
      modifies this, index
      ensures Valid()
      ensures items == From(old(items), ReadyEnd(old(items), start))
      ensures SortedContents(ready, Below(old(items), ReadyEnd(old(items), start)))
    {
      hide Indexed, From, Below, SortedContents, Popped, Rooted, HandedOut, Cached, RunEnd, ReadyEnd;
      IndexRoot(index.s, items);
      ready := [];
      ghost var m := items;
      ReadyStart(m, start, index.s);
      if |index.s| == 0 || index.s[0] > start {
        return;
      }
      var next := index.s[0];
      ghost var first := next;
      while |index.s| > 0 && index.s[0] == next
        invariant Indexed(index.s, items) && Rooted(index.s, items) && HandedOut(m, next, ready, items)
        invariant first <= next && RunEnd(m, first) == RunEnd(m, next)
        decreases |items|
      {
        ghost var rest := items;
        var tx := PopLeast();
        AdvanceBound(ready, m, next, rest, next, tx, items);
        ready := ready + [tx];
        next := next + 1;
        IndexRoot(index.s, items);
      }
      RunStops(m, next, ready, items, index.s);
      NotCached(items);
      cache := None;
    }

    method Flatten() returns (txs: seq<Tx>)
      requires Valid()
      modifies this`cache
      ensures Valid() && SortedContents(txs, items)
      ensures cache == Some(txs)
    {
      if cache.None? {
        var sorted := Flattened(items);
        cache := Some(sorted);
      }
      txs := cache.value;
    }
  }

  /** List the transactions of a map in whatever order the map is visited. */
  method Collect(items: Items) returns (all: seq<Tx>)
    requires Keyed(items)
    ensures Enumerates(all, items)
  {
    all := [];
    var todo := items;
    assert items - todo.Keys == map[];
    while todo != map[]
      invariant PartOf(todo, items) && Enumerates(all, items - todo.Keys)
      decreases |todo|
    {
      var nonce :| nonce in todo;
      SizeWithout(todo, nonce);
      EnumerateMore(all, items, todo, nonce);
      all, todo := all + [items[nonce]], todo - {nonce};
    }
    assert items - todo.Keys == items;
  }

  /** The transactions of a map in nonce order. */
  method Flattened(items: Items) returns (sorted: seq<Tx>)
    requires Keyed(items)
    ensures SortedContents(sorted, items)
  {
    var all := Collect(items);
    sorted := Sort(all, TxNonceKey);
    SortedEnumeration(all, sorted, items);
  }

  /** Where `Ready` stops: everything below this nonce is handed out. */
  function ReadyEnd(m: Items, start: nat): nat {
    if m == map[] || MinNonce(m) > start then 0 else RunEnd(m, MinNonce(m))
  }

  lemma BoundZero(m: Items, t: nat)
    requires t == 0 || IsLeast(m, t)
    ensures HandedOut(m, t, [], m)
  {
    assert Below(m, t) == map[] && From(m, t) == m;
  }

  lemma BoundReached(m: Items, bound: nat, threshold: nat, done: seq<Tx>, rest: Items, s: seq<nat>)
    requires bound <= threshold && HandedOut(m, bound, done, rest)
    requires Rooted(s, rest) && (|s| > 0 ==> threshold <= s[0])
    ensures rest == From(m, threshold) && SortedContents(done, Below(m, threshold))
  {
    assert |rest| == 0 ==> rest == map[];
    forall n | n in m && n >= bound ensures n >= threshold {
      assert n in rest;
    }
    assert Below(m, bound) == Below(m, threshold);
  }

  lemma ReadyStart(m: Items, start: nat, s: seq<nat>)
    requires Rooted(s, m)
    ensures |s| == 0 || s[0] > start ==>
              m == From(m, ReadyEnd(m, start)) && SortedContents([], Below(m, ReadyEnd(m, start)))
    ensures |s| > 0 && s[0] <= start ==> ReadyEnd(m, start) == RunEnd(m, s[0]) && HandedOut(m, s[0], [], m)
  {
    BoundZero(m, 0);
    if |s| > 0 {
      assert m != map[] && MinNonce(m) == s[0];
      BoundZero(m, s[0]);
    } else {
      assert m == map[];
    }
  }

  lemma RunStops(m: Items, next: nat, done: seq<Tx>, rest: Items, s: seq<nat>)
    requires HandedOut(m, next, done, rest) && Rooted(s, rest) && (|s| > 0 ==> s[0] != next)
    ensures RunEnd(m, next) == next
    ensures rest == From(m, next) && SortedContents(done, Below(m, next))
  {
    assert |rest| == 0 ==> rest == map[];
    assert next in m ==> next in From(m, next);
  }

  lemma LowestStep(m: Items, n: nat, t: nat)
    requires IsGreatest(m, n) && |m| > t
    ensures Lowest(m, t) == Lowest(m - {n}, t) && |m - {n}| == |m| - 1
    ensures forall m': Items :: PartOf(m, m') ==> PartOf(m - {n}, m')
  {
    SizeWithout(m, n);
    assert MaxNonce(m) == n;
  }

  lemma EnumerateNone(m: Items)
    ensures Enumerates([], m - m.Keys)
  {
    assert m - m.Keys == map[];
  }

  lemma KeysWithout(m: Items, n: nat)
    requires n in m
    ensures multiset((m - {n}).Keys) == multiset(m.Keys) - multiset{n}
    ensures |m - {n}| == |m| - 1
  {
    assert (m - {n}).Keys == m.Keys - {n};
  }

  /** Popping the least entry at or above `bound` moves the bound just past it. */
  lemma AdvanceBound(s: seq<Tx>, m: Items, bound: nat, rest: Items, n: nat, tx: Tx, rest': Items)
    requires HandedOut(m, bound, s, rest) && Popped(rest, n, tx, rest')
    ensures HandedOut(m, n + 1, s + [tx], rest')
    ensures n == bound ==> RunEnd(m, bound) == RunEnd(m, bound + 1)
  {
    BoundGap(m, bound, n);
    SortedAppend(s, Below(m, bound), tx);
  }

  lemma BoundGap(m: Items, bound: nat, n: nat)
    requires IsLeast(From(m, bound), n)
    ensures From(m, bound) - {n} == From(m, n + 1)
    ensures Below(m, n + 1) == Below(m, bound)[n := m[n]]
  {
    forall k | k in m && k < n ensures k < bound {
      assert k >= bound ==> k in From(m, bound);
    }
  }

  lemma SortedAppend(s: seq<Tx>, m: Items, tx: Tx)
    requires SortedContents(s, m) && forall n :: n in m ==> n < tx.nonce
    ensures SortedContents(s + [tx], m[tx.nonce := tx])
  {
    assert (m[tx.nonce := tx]).Keys == m.Keys + {tx.nonce};
  }

  /** s lists the keys of m once each. */
  ghost predicate Lists(s: seq<nat>, m: Items) {
    Keyed(m) && multiset(s) == multiset(m.Keys)
  }

  lemma ListsNone(m: Items)
    ensures Lists([], m - m.Keys)
  {
    assert m - m.Keys == map[];
  }

  lemma ListsMore(s: seq<nat>, m: Items, todo: Items, n: nat)
    requires Keyed(m) && PartOf(todo, m) && n in todo && Lists(s, m - todo.Keys)
    ensures Lists(s + [n], m - (todo - {n}).Keys) && |todo - {n}| < |todo|
  {
    SizeWithout(todo, n);
    assert (m - (todo - {n}).Keys).Keys == (m - todo.Keys).Keys + {n};
  }

  lemma IndexParts(s: seq<nat>, m: Items)
    requires Indexed(s, m)
    ensures Lists(s, m) && Keyed(m) && Ordered(s, NonceKey)
  {
  }

  lemma IndexRoot(s: seq<nat>, m: Items)
    requires Indexed(s, m)
    ensures Rooted(s, m)
  {
    assert |multiset(s)| == |s| && |multiset(m.Keys)| == |m.Keys|;
    RootIsMinOfAll(s, NonceKey);
    forall k | k in m ensures k in s && (|s| > 0 ==> s[0] <= k) {
      assert k in multiset(s);
      assert NonceKey(k) == k;
    }
    if |s| > 0 {
      assert s[0] in multiset(s);
      assert NonceKey(s[0]) == s[0];
    }
  }

  /** Taking one nonce out of the index and out of the map keeps them matched. */
  lemma IndexTake(s: seq<nat>, m: Items, s': seq<nat>, n: nat)
    requires Indexed(s, m) && Ordered(s', NonceKey) && multiset(s) == multiset(s') + multiset{n}
    ensures n in m && Indexed(s', m - {n}) && |m - {n}| == |m| - 1
  {
    assert n in multiset(s);
    KeysWithout(m, n);
  }

  lemma IndexPut(s: seq<nat>, m: Items, s': seq<nat>, tx: Tx)
    requires Indexed(s, m) && Ordered(s', NonceKey)
    requires multiset(s') == if tx.nonce in m then multiset(s) else multiset(s) + multiset{tx.nonce}
    ensures Indexed(s', m[tx.nonce := tx])
  {
    hide Ordered;
    var m' := m[tx.nonce := tx];
    if tx.nonce in m {
      assert m'.Keys == m.Keys;
    } else {
      assert m'.Keys == m.Keys + {tx.nonce};
      assert multiset(m.Keys + {tx.nonce}) == multiset(m.Keys) + multiset{tx.nonce};
    }
  }

  lemma FilterStart(m: Items, test: Tx -> bool)
    ensures Keyed(m) ==> Filtering(m, test, m.Keys, [], m)
  {
    EnumerateNone(m);
  }

  lemma FilterStep(m: Items, test: Tx -> bool, todo: set<nat>, removed: seq<Tx>, kept: Items, n: nat)
    requires Filtering(m, test, todo, removed, kept) && n in todo && n in kept
    ensures test(kept[n]) ==> Filtering(m, test, todo - {n}, removed + [kept[n]], kept - {n})
    ensures !test(kept[n]) ==> Filtering(m, test, todo - {n}, removed, kept)
  {
    EnumerateMore(removed, m, kept, n);
  }

  lemma FilterDone(m: Items, test: Tx -> bool, removed: seq<Tx>, kept: Items)
    requires Filtering(m, test, {}, removed, kept)
    ensures kept == WhereNot(m, test) && Enumerates(removed, Where(m, test)) && Keyed(kept)
    ensures removed == [] ==> kept == m
  {
    FilterSplit(m, test, kept);
    if removed == [] { NothingRemoved(m, kept); }
  }

  lemma FilterSplit(m: Items, test: Tx -> bool, kept: Items)
    requires PartOf(kept, m)
    requires (forall n :: n in m && n !in kept ==> test(m[n])) && (forall n :: n in kept ==> !test(m[n]))
    ensures kept == WhereNot(m, test) && m - kept.Keys == Where(m, test)
  {
  }

  lemma CapStart(m: Items, t: nat, s: seq<nat>, sorted: seq<nat>)
    requires Lists(s, m) && multiset(sorted) == multiset(s) && NonDecreasing(sorted, NonceKey)
    ensures |sorted| == |m| && Capping(m, t, [], m, sorted, |m|)
  {
    SortedIndex(sorted, m);
    EnumerateNone(m);
  }

  lemma CapStep(m: Items, t: nat, drops: seq<Tx>, kept: Items, sorted: seq<nat>, size: nat)
    requires t < size <= |sorted| && Capping(m, t, drops, kept, sorted, size)
    ensures IsGreatest(kept, sorted[size - 1])
    ensures Capping(m, t, drops + [kept[sorted[size - 1]]], kept - {sorted[size - 1]}, sorted, size - 1)
  {
    LastIsGreatest(sorted, size, kept);
    EnumerateMore(drops, m, kept, sorted[size - 1]);
    LowestStep(kept, sorted[size - 1], t);
  }

  lemma CapDone(m: Items, drops: seq<Tx>, kept: Items, sorted: seq<nat>, size: nat)
    requires size <= |sorted| && Capping(m, size, drops, kept, sorted, size)
    ensures kept == Lowest(m, size) && Enumerates(drops, m - kept.Keys) && Keyed(kept)
    ensures Lists(sorted[..size], kept)
  {
    LowestAll(kept, size);
  }

  lemma NotCached(m: Items)
    ensures Cached(None, m)
  {
  }

  lemma CachedWhole(cache: Option<seq<Tx>>, m: Items)
    requires Cached(cache, m)
    ensures CachedFrom(cache, 0, m) && CachedUpTo(cache, 0, m)
  {
    if cache.Some? {
      assert cache.value[0..] == cache.value && cache.value[..|cache.value|] == cache.value;
    }
  }

  lemma CachedSlice(cache: Option<seq<Tx>>, k: nat, m: Items)
    ensures CachedFrom(cache, k, m) && cache.Some? ==> k <= |cache.value| && Cached(Some(cache.value[k..]), m)
    ensures CachedUpTo(cache, k, m) && cache.Some? ==>
              k <= |cache.value| && Cached(Some(cache.value[..|cache.value| - k]), m)
    ensures cache.None? ==> Cached(cache, m)
  {
  }

  /** Dropping the least entry drops the front of the remaining sorted tail. */
  lemma CachedPopFront(cache: Option<seq<Tx>>, k: nat, m: Items, n: nat, tx: Tx, m': Items)
    requires CachedFrom(cache, k, m) && Popped(m, n, tx, m')
    ensures CachedFrom(cache, k + 1, m')
  {
    if cache.Some? {
      var c := cache.value;
      assert m.Keys != {};
      SortedEnds(c[k..], m);
      SortedDropFront(c[k..], m);
      assert c[k..][1..] == c[k + 1..];
    }
  }

  /** Dropping the greatest entry drops the back of the remaining sorted prefix. */
  lemma CachedPopBack(cache: Option<seq<Tx>>, k: nat, m: Items, n: nat)
    requires CachedUpTo(cache, k, m) && IsGreatest(m, n)
    ensures CachedUpTo(cache, k + 1, m - {n})
  {
    if cache.Some? {
      var c := cache.value;
      assert m.Keys != {};
      SortedEnds(c[..|c| - k], m);
      SortedDropBack(c[..|c| - k], m);
      assert c[..|c| - k][..|c| - k - 1] == c[..|c| - (k + 1)];
    }
  }

  lemma NothingRemoved(m: Items, kept: Items)
    requires PartOf(kept, m) && Enumerates([], m - kept.Keys)
    ensures kept == m
  {
    assert (m - kept.Keys).Keys == {};
    forall n | n in m ensures n in kept {
      assert n !in kept ==> n in m - kept.Keys;
    }
  }

  lemma LowestAll(m: Items, t: nat)
    ensures |m| <= t ==> Lowest(m, t) == m
  {
  }

  lemma SortedIndex(sorted: seq<nat>, m: Items)
    requires multiset(sorted) == multiset(m.Keys) && NonDecreasing(sorted, NonceKey)
    ensures |sorted| == |m| && SortedKeys(sorted, |m|, m)
  {
    assert |multiset(sorted)| == |multiset(m.Keys)|;
    assert sorted[..|m|] == sorted;
  }

  /** Moving one more entry from `kept` to the list keeps the list complete. */
  lemma EnumerateMore(s: seq<Tx>, m: Items, kept: Items, n: nat)
    requires Keyed(m) && PartOf(kept, m) && n in kept && Enumerates(s, m - kept.Keys)
    ensures Enumerates(s + [m[n]], m - (kept - {n}).Keys)
  {
    assert (m - (kept - {n}).Keys) == (m - kept.Keys)[n := m[n]];
    assert (m - (kept - {n}).Keys).Keys == (m - kept.Keys).Keys + {n};
  }

  lemma LastIsGreatest(sorted: seq<nat>, size: nat, m: Items)
    requires 0 < size <= |sorted| && SortedKeys(sorted, size, m)
    ensures IsGreatest(m, sorted[size - 1]) && sorted[size - 1] in m
    ensures SortedKeys(sorted, size - 1, m - {sorted[size - 1]})
  {
    var n := sorted[size - 1];
    assert sorted[..size] == sorted[..size - 1] + [n];
    assert n in multiset(sorted[..size]);
    KeysWithout(m, n);
    forall k | k in m ensures k <= n {
      assert k in multiset(sorted[..size]);
      var i :| 0 <= i < size && sorted[..size][i] == k;
      assert NonceKey(sorted[i]) <= NonceKey(sorted[size - 1]);
    }
  }

  lemma SortedEnumeration(all: seq<Tx>, sorted: seq<Tx>, m: Items)
    requires Enumerates(all, m) && Keyed(m) && multiset(all) == multiset(sorted) && NonDecreasing(sorted, TxNonceKey)
    ensures SortedContents(sorted, m)
  {
    assert |multiset(all)| == |multiset(sorted)|;
    forall i | 0 <= i < |sorted| ensures sorted[i].nonce in m && m[sorted[i].nonce] == sorted[i] {
      assert sorted[i] in multiset(all);
    }
    forall n | n in m ensures m[n] in sorted {
      assert m[n] in multiset(sorted);
    }
    forall i, j | 0 <= i < j < |sorted| ensures sorted[i].nonce < sorted[j].nonce {
      assert TxNonceKey(sorted[i]) <= TxNonceKey(sorted[j]);
      if sorted[i].nonce == sorted[j].nonce {
        CountsForbidRepeat(sorted, m, i, j);
      }
    }
  }

  /** A list as long as the map that covers the map repeats nothing. */
  lemma CountsForbidRepeat(s: seq<Tx>, m: Items, i: nat, j: nat)
    requires i < j < |s| && s[i] == s[j]
    requires forall n :: n in m ==> m[n] in s && m[n].nonce == n
    ensures |m| < |s|
  {
    var rest := s[..j] + s[j + 1..];
    forall n | n in m ensures m[n] in rest {
      var k :| 0 <= k < |s| && s[k] == m[n];
      if k == j {
        assert rest[i] == s[i];
      } else if k < j {
        assert rest[k] == s[k];
      } else {
        assert rest[k - 1] == s[k];
      }
    }
    CoverNeedsLength(rest, m);
  }

  lemma {:induction false} CoverNeedsLength(s: seq<Tx>, m: Items)
    requires forall n :: n in m ==> m[n] in s && m[n].nonce == n
    ensures |m| <= |s|
  {
    if s == [] {
      assert m.Keys == {};
    } else {
      var m' := m - {s[0].nonce};
      if s[0].nonce in m { SizeWithout(m, s[0].nonce); } else { assert m' == m; }
      forall n | n in m' ensures m'[n] in s[1..] {
        var k :| 0 <= k < |s| && s[k] == m[n];
        assert k != 0;
        assert s[1..][k - 1] == s[k];
      }
      CoverNeedsLength(s[1..], m');
    }
  }
}
