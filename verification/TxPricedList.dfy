/** core/tx_list.go, `txPricedList`: the price heap over the pool, with stale entries and
    repeated entries. `all` is the pool's set of known transactions at the time of the call. */
module TxPricedLists {
  import opened Heaps
  import opened TxTypes

  const PriceKey: Tx -> int := (tx: Tx) => tx.gasPrice

  /** Every transaction in `all` has at least one entry in s. */
  ghost predicate Covers(s: multiset<Tx>, all: set<Tx>) {
    forall tx :: tx in all ==> tx in s
  }

  /** The remote transactions of `all` cheaper than the threshold. */
  function RemoteBelow(all: set<Tx>, threshold: int, locals: set<Address>): set<Tx> {
    set tx | tx in all && tx.gasPrice < threshold && tx.from !in locals
  }

  predicate IsCheapest(tx: Tx, all: set<Tx>) {
    forall t :: t in all ==> tx.gasPrice <= t.gasPrice
  }

  function ToSet(s: seq<Tx>): set<Tx> {
    set tx | tx in s
  }

  class TxPricedList {
    const items: MinHeap<Tx>
    var stales: int

    ghost predicate Valid()
      reads this, items
    {
      items.Valid() && items.key == PriceKey
    }

    ghost function Entries(): multiset<Tx>
      reads this, items
    {
      multiset(items.s)
    }

    constructor ()
      ensures Valid() && Entries() == multiset{} && stales == 0 && fresh(items)
    {
      items := new MinHeap<Tx>(PriceKey);
      stales := 0;
    }

    method Put(tx: Tx)
      requires Valid()
      modifies this, items
      ensures Valid() && Entries() == old(Entries()) + multiset{tx}
    {
      items.Push(tx);
    }

    /** Count a stale entry; rebuild from `all` once more than a quarter of the heap is stale. */
    method Removed(all: set<Tx>)
      requires Valid()
      modifies this, items
      ensures Valid()
      ensures old(stales) + 1 <= old(|items.s|) / 4 ==> Entries() == old(Entries()) && stales == old(stales) + 1
      ensures old(stales) + 1 > old(|items.s|) / 4 ==> Entries() == multiset(all) && stales == 0
    {
      stales := stales + 1;
      if stales <= |items.s| / 4 {
        return;
      }
      stales := 0;
      items.s := [];
      var todo := all;
      while todo != {}
        invariant todo <= all && multiset(items.s) == multiset(all - todo) && stales == 0
        decreases todo
      {
        var tx :| tx in todo;
        assert all - (todo - {tx}) == all - todo + {tx};
        todo := todo - {tx};
        items.s := items.s + [tx];
      }
      assert all - todo == all;
      items.Init();
    }

    /** Takes the remote transactions below the threshold off the heap. */
    method Cap(threshold: int, all: set<Tx>, locals: set<Address>) returns (drop: seq<Tx>)
      requires Valid() && Covers(Entries(), all)
      modifies this, items
      ensures Valid() && ToSet(drop) == RemoteBelow(all, threshold, locals)
      ensures Covers(Entries(), all - ToSet(drop))
      ensures |items.s| - stales == old(|items.s| - stales) - |drop|
    {
      hide Capping, Covers, RemoteBelow, ToSet, IsCheapest;
      drop := [];
      var save: seq<Tx> := [];
      CapStart(items.s, all, threshold, locals);
      var done := false;
      while |items.s| > 0 && !done
        invariant Valid()
        invariant Capping(items.s, save, drop, all, threshold, locals, done)
        invariant |items.s| - stales == old(|items.s| - stales) - |drop| - |save|
        decreases |items.s|, !done
      {
        ghost var before := items.s;
        var tx := items.Pop();
        PoppedOne(before, tx, items.s);
        CapStep(before, tx, items.s, save, drop, all, threshold, locals);
        if tx !in all {
          stales := stales - 1;
        } else if tx.gasPrice >= threshold {
          save := save + [tx];
          done := true;
        } else if tx.from in locals {
          save := save + [tx];
        } else {
          drop := drop + [tx];
        }
      }
      CapDone(items.s, save, drop, all, threshold, locals, done);
      PutBack(save);
    }

    method PutBack(save: seq<Tx>)
      requires Valid()
      modifies this, items
      ensures Valid() && Entries() == old(Entries()) + multiset(save) && stales == old(stales)
      ensures |items.s| == old(|items.s|) + |save|
    {
      for i := 0 to |save|
        invariant Valid() && Entries() == old(Entries()) + multiset(save[..i]) && stales == old(stales)
      {
        assert save[..i + 1] == save[..i] + [save[i]];
        items.Push(save[i]);
      }
      assert save[..|save|] == save;
      SameCount(old(items.s), save, items.s);
    }

    /** Whether tx is no better than the cheapest pooled transaction. */
    method Underpriced(tx: Tx, all: set<Tx>, locals: set<Address>) returns (r: bool)
      requires Valid() && Covers(Entries(), all)
      modifies this, items
      ensures Valid() && Covers(Entries(), all)
      ensures r <==> tx.from !in locals && all != {} && IsCheapest(tx, all)
      ensures |items.s| - stales == old(|items.s| - stales)
    {
      if tx.from in locals {
        return false;
      }
      while |items.s| > 0 && items.s[0] !in all
        invariant Valid() && Covers(Entries(), all)
        invariant |items.s| - stales == old(|items.s| - stales)
        decreases |items.s|
      {
        stales := stales - 1;
        ghost var before := items.s;
        var tx := items.Pop();
        PoppedOne(before, tx, items.s);
      }
      CheapestAtRoot(items.s, all, tx);
      if |items.s| == 0 {
        return false;
      }
      r := items.s[0].gasPrice >= tx.gasPrice;
    }

    /** Takes up to `count` of the cheapest remote entries off the heap. */
    method Discard(count: int, all: set<Tx>, locals: set<Address>) returns (drop: seq<Tx>)
      requires Valid() && Covers(Entries(), all) && count >= 0
      modifies this, items
      ensures Valid() && Covers(Entries(), all - ToSet(drop))
      ensures |drop| <= count && forall tx :: tx in drop ==> tx in all && tx.from !in locals
      ensures forall d, t :: d in drop && t in all && t !in drop && t.from !in locals ==> d.gasPrice <= t.gasPrice
      ensures |drop| < count ==> forall t :: t in all && t.from !in locals ==> t in drop
      ensures |items.s| - stales == old(|items.s| - stales) - |drop|
    {
      hide Discarding, Covers, ToSet;
      drop := [];
      var save: seq<Tx> := [];
      var left := count;
      DiscardStart(items.s, all, locals);
      while |items.s| > 0 && left > 0
        invariant Valid() && left >= 0 && |drop| + left == count
        invariant Discarding(items.s, save, drop, all, locals)
        invariant |items.s| - stales == old(|items.s| - stales) - |drop| - |save|
        decreases |items.s|
      {
        ghost var before := items.s;
        var tx := items.Pop();
        PoppedOne(before, tx, items.s);
        DiscardStep(before, tx, items.s, save, drop, all, locals);
        if tx !in all {
          stales := stales - 1;
        } else if tx.from in locals {
          save := save + [tx];
        } else {
          drop := drop + [tx];
          left := left - 1;
        }
      }
      DiscardDone(items.s, save, drop, all, locals);
      PutBack(save);
    }
  }

  /** The state of `Cap`'s loop: nothing of `all` is lost between the heap and the two lists,
      the lists hold what they should, and after the break everything left is dear enough. */
  ghost predicate Capping(s: seq<Tx>, save: seq<Tx>, drop: seq<Tx>, all: set<Tx>, threshold: int,
                          locals: set<Address>, done: bool)
  {
    && (forall tx :: tx in all ==> tx in s || tx in save || tx in drop)
    && (forall tx :: tx in drop ==> tx in RemoteBelow(all, threshold, locals))
    && (forall tx :: tx in save ==> tx.gasPrice >= threshold || tx.from in locals)
    && (done ==> forall tx :: tx in s ==> tx.gasPrice >= threshold)
  }

  lemma CapStart(s: seq<Tx>, all: set<Tx>, threshold: int, locals: set<Address>)
    requires Covers(multiset(s), all)
    ensures Capping(s, [], [], all, threshold, locals, false)
  {
    forall tx | tx in all ensures tx in s { assert tx in multiset(s); }
  }

  lemma CapStep(s: seq<Tx>, tx: Tx, s': seq<Tx>, save: seq<Tx>, drop: seq<Tx>, all: set<Tx>, threshold: int,
                locals: set<Address>)
    requires Capping(s, save, drop, all, threshold, locals, false)
    requires multiset(s) == multiset(s') + multiset{tx} && forall y :: y in s ==> PriceKey(tx) <= PriceKey(y)
    ensures tx !in all ==> Capping(s', save, drop, all, threshold, locals, false)
    ensures tx in all && tx.gasPrice >= threshold ==> Capping(s', save + [tx], drop, all, threshold, locals, true)
    ensures tx in all && tx.gasPrice < threshold && tx.from in locals ==>
              Capping(s', save + [tx], drop, all, threshold, locals, false)
    ensures tx in all && tx.gasPrice < threshold && tx.from !in locals ==>
              Capping(s', save, drop + [tx], all, threshold, locals, false)
  {
    PoppedMembers(s, tx, s');
  }

  lemma PoppedOne(s: seq<Tx>, tx: Tx, s': seq<Tx>)
    requires multiset(s) == multiset(s') + multiset{tx}
    ensures |s| == |s'| + 1
  {
    assert |multiset(s)| == |s| && |multiset(s')| == |s'|;
  }

  lemma SameCount(s: seq<Tx>, more: seq<Tx>, s': seq<Tx>)
    requires multiset(s') == multiset(s) + multiset(more)
    ensures |s'| == |s| + |more|
  {
    assert |multiset(s')| == |s'| && |multiset(s)| == |s| && |multiset(more)| == |more|;
  }

  lemma PoppedMembers(s: seq<Tx>, tx: Tx, s': seq<Tx>)
    requires multiset(s) == multiset(s') + multiset{tx}
    ensures tx in s && forall t :: t in s <==> t == tx || t in s'
  {
    forall t ensures t in s <==> t == tx || t in s' {
      assert t in s <==> t in multiset(s);
      assert t in s' <==> t in multiset(s');
    }
  }

  lemma CapDone(s: seq<Tx>, save: seq<Tx>, drop: seq<Tx>, all: set<Tx>, threshold: int, locals: set<Address>,
                done: bool)
    requires Capping(s, save, drop, all, threshold, locals, done) && (done || s == [])
    ensures ToSet(drop) == RemoteBelow(all, threshold, locals)
    ensures Covers(multiset(s) + multiset(save), all - ToSet(drop))
  {
    forall tx | tx in RemoteBelow(all, threshold, locals) ensures tx in drop {
    }
  }

  lemma CheapestAtRoot(s: seq<Tx>, all: set<Tx>, tx: Tx)
    requires Ordered(s, PriceKey) && Covers(multiset(s), all) && (|s| > 0 ==> s[0] in all)
    ensures |s| == 0 ==> all == {}
    ensures |s| > 0 ==> (s[0].gasPrice >= tx.gasPrice <==> IsCheapest(tx, all))
  {
    RootIsMinOfAll(s, PriceKey);
    forall t | t in all ensures t in s && s[0].gasPrice <= t.gasPrice {
      assert t in multiset(s);
      assert PriceKey(s[0]) <= PriceKey(t);
    }
  }

  ghost predicate Discarding(s: seq<Tx>, save: seq<Tx>, drop: seq<Tx>, all: set<Tx>, locals: set<Address>) {
    && (forall tx :: tx in all ==> tx in s || tx in save || tx in drop)
    && (forall tx :: tx in drop ==> tx in all && tx.from !in locals)
    && (forall tx :: tx in save ==> tx.from in locals)
    && (forall d, t :: d in drop && t in s ==> d.gasPrice <= t.gasPrice)
  }

  lemma DiscardStart(s: seq<Tx>, all: set<Tx>, locals: set<Address>)
    requires Covers(multiset(s), all)
    ensures Discarding(s, [], [], all, locals)
  {
    forall tx | tx in all ensures tx in s { assert tx in multiset(s); }
  }

  lemma DiscardStep(s: seq<Tx>, tx: Tx, s': seq<Tx>, save: seq<Tx>, drop: seq<Tx>, all: set<Tx>,
                    locals: set<Address>)
    requires Discarding(s, save, drop, all, locals)
    requires multiset(s) == multiset(s') + multiset{tx} && forall y :: y in s ==> PriceKey(tx) <= PriceKey(y)
    ensures tx !in all ==> Discarding(s', save, drop, all, locals)
    ensures tx in all && tx.from in locals ==> Discarding(s', save + [tx], drop, all, locals)
    ensures tx in all && tx.from !in locals ==> Discarding(s', save, drop + [tx], all, locals)
  {
    PoppedMembers(s, tx, s');
    forall t | t in s' ensures tx.gasPrice <= t.gasPrice {
      assert PriceKey(tx) <= PriceKey(t);
    }
  }

  lemma DiscardDone(s: seq<Tx>, save: seq<Tx>, drop: seq<Tx>, all: set<Tx>, locals: set<Address>)
    requires Discarding(s, save, drop, all, locals)
    ensures Covers(multiset(s) + multiset(save), all - ToSet(drop))
    ensures forall tx :: tx in drop ==> tx in all && tx.from !in locals
    ensures forall d, t :: d in drop && t in all && t !in drop && t.from !in locals ==> d.gasPrice <= t.gasPrice
    ensures s == [] ==> forall t :: t in all && t.from !in locals ==> t in drop
  {
  }
}
