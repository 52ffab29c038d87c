/** core/tx_list.go, `txList`: the nonce list of one account with its cost and gas caps. The
    datatype `List` is the list as a value; the class `TxList` is the list as the source keeps
    it, and each of its methods is proved to do what the function of the same name says. */
module TxLists {
  import opened TxTypes
  import opened TxSortedMaps

  datatype AddResult = Rejected | Added(list: List, replaced: Option<Tx>)

  datatype FilterResult = Filtered(list: List, removed: Items, invalids: Items)

  /** A transaction the account can no longer pay for, or that no block can hold. */
  function Unpayable(costLimit: int, gasLimit: nat): Tx -> bool {
    (tx: Tx) => tx.Cost() > costLimit || tx.gas > gasLimit
  }

  function NonceAbove(n: nat): Tx -> bool {
    (tx: Tx) => tx.nonce > n
  }

  /** No entry at or below nonce n is bad. */
  ghost predicate CleanUpTo(m: Items, bad: Tx -> bool, n: nat) {
    forall k :: k in m && k <= n ==> !bad(m[k])
  }

  /** The price rule for taking the place of a pooled transaction. */
  predicate Outbids(tx: Tx, prev: Tx, priceBump: nat) {
    prev.gasPrice < tx.gasPrice && prev.gasPrice * (100 + priceBump) / 100 <= tx.gasPrice
  }

  datatype List = List(strict: bool, items: Items, costcap: int, gascap: nat) {

    /** The caps bound every stored transaction. */
    ghost predicate Valid() {
      && Keyed(items)
      && forall n :: n in items ==> items[n].Cost() <= costcap && items[n].gas <= gascap
    }

    function Add(tx: Tx, priceBump: nat): AddResult {
      if tx.nonce in items && !Outbids(tx, items[tx.nonce], priceBump) then Rejected
      else
        Added(List(strict, items[tx.nonce := tx],
                   if costcap < tx.Cost() then tx.Cost() else costcap,
                   if gascap < tx.gas then tx.gas else gascap),
              if tx.nonce in items then Some(items[tx.nonce]) else None)
    }

    function Forward(threshold: nat): List {
      this.(items := From(items, threshold))
    }

    function Filter(costLimit: int, gasLimit: nat): FilterResult {
      if costcap <= costLimit && gascap <= gasLimit then Filtered(this, map[], map[])
      else
        var removed := Where(items, Unpayable(costLimit, gasLimit));
        var kept := WhereNot(items, Unpayable(costLimit, gasLimit));
        if strict && removed != map[] then
          var lowest := MinNonce(removed);
          Filtered(List(strict, Below(kept, lowest), costLimit, gasLimit), removed, From(kept, lowest))
        else
          Filtered(List(strict, kept, costLimit, gasLimit), removed, map[])
    }

    function Cap(threshold: nat): List {
      this.(items := Lowest(items, threshold))
    }

    /** What remains after taking out a nonce: in strict mode everything above it goes too. */
    function Remove(nonce: nat): List {
      this.(items := if nonce in items && strict then Below(items, nonce) else items - {nonce})
    }

    /** What a removal invalidates (strict mode only). */
    function Invalidated(nonce: nat): Items {
      if nonce in items && strict then From(items, nonce + 1) else map[]
    }

    function Ready(start: nat): List {
      this.(items := From(items, ReadyEnd(items, start)))
    }
  }

  const NewList: bool -> List := (strict: bool) => List(strict, map[], 0, 0)

  /** The nonces of m are exactly the interval [lo, hi). */
  ghost predicate Contiguous(m: Items, lo: nat, hi: nat) {
    lo <= hi && forall n :: n in m <==> lo <= n < hi
  }

  /** The cap shortcut never changes the outcome: every unpayable transaction goes, and only
      those; in strict mode exactly the payable ones after the first unpayable one are invalid. */
  lemma FilterIsComplete(l: List, costLimit: int, gasLimit: nat)
    requires l.Valid()
    ensures var r := l.Filter(costLimit, gasLimit);
            var bad := Unpayable(costLimit, gasLimit);
            && r.list.Valid() && r.list.strict == l.strict
            && r.removed == Where(l.items, bad)
            && (!l.strict ==> r.list.items == WhereNot(l.items, bad) && r.invalids == map[])
            && (l.strict ==>
                  && (forall n :: n in r.list.items <==> n in l.items && CleanUpTo(l.items, bad, n))
                  && (forall n :: n in r.invalids <==>
                        n in l.items && !bad(l.items[n]) && !CleanUpTo(l.items, bad, n)))
  {
    var bad := Unpayable(costLimit, gasLimit);
    if l.costcap <= costLimit && l.gascap <= gasLimit {
      assert forall n :: n in l.items ==> !bad(l.items[n]);
      assert Where(l.items, bad) == map[] && WhereNot(l.items, bad) == l.items;
    } else {
      var removed, kept := Where(l.items, bad), WhereNot(l.items, bad);
      if l.strict {
        StrictCut(l.items, bad);
      }
    }
  }

  /** Cutting at the lowest bad nonce keeps exactly the entries with nothing bad at or below them. */
  lemma StrictCut(m: Items, bad: Tx -> bool)
    ensures var removed, kept := Where(m, bad), WhereNot(m, bad);
            if removed == map[] then kept == m
            else
              var lowest := MinNonce(removed);
              && (forall n :: n in Below(kept, lowest) <==> n in m && CleanUpTo(m, bad, n))
              && (forall n :: n in From(kept, lowest) <==> n in m && !bad(m[n]) && !CleanUpTo(m, bad, n))
  {
    var removed, kept := Where(m, bad), WhereNot(m, bad);
    if removed == map[] {
      forall n | n in m ensures !bad(m[n]) {
        assert bad(m[n]) ==> n in removed;
      }
    } else {
      var lowest := MinNonce(removed);
      forall n | n in m ensures CleanUpTo(m, bad, n) <==> n < lowest {
        CleanBelow(m, bad, lowest, n);
      }
    }
  }

  lemma CleanBelow(m: Items, bad: Tx -> bool, lowest: nat, n: nat)
    requires IsLeast(Where(m, bad), lowest)
    ensures CleanUpTo(m, bad, n) <==> n < lowest
  {
    assert lowest in m && bad(m[lowest]);
    forall k | k in m && k < lowest ensures !bad(m[k]) {
      assert bad(m[k]) ==> k in Where(m, bad);
    }
  }

  /** Removed, invalidated and remaining partition the list. */
  lemma FilterPartitions(l: List, costLimit: int, gasLimit: nat)
    requires l.Valid()
    ensures var r := l.Filter(costLimit, gasLimit);
            && r.removed.Keys !! r.invalids.Keys !! r.list.items.Keys
            && r.removed.Keys + r.invalids.Keys + r.list.items.Keys == l.items.Keys
            && PartOf(r.removed, l.items) && PartOf(r.invalids, l.items) && PartOf(r.list.items, l.items)
  {
    FilterIsComplete(l, costLimit, gasLimit);
    var r := l.Filter(costLimit, gasLimit);
    var bad := Unpayable(costLimit, gasLimit);
    forall n | n in l.items ensures n in r.removed || n in r.invalids || n in r.list.items {
      assert bad(l.items[n]) ==> n in Where(l.items, bad);
    }
  }

  /** A contiguous strict list stays a contiguous prefix of itself. */
  lemma FilterKeepsPrefix(l: List, costLimit: int, gasLimit: nat, lo: nat, hi: nat) returns (mid: nat)
    requires l.Valid() && l.strict && Contiguous(l.items, lo, hi)
    ensures lo <= mid <= hi && Contiguous(l.Filter(costLimit, gasLimit).list.items, lo, mid)
  {
    FilterIsComplete(l, costLimit, gasLimit);
    var bad := Unpayable(costLimit, gasLimit);
    if Where(l.items, bad) == map[] {
      mid := hi;
      forall n | n in l.items ensures CleanUpTo(l.items, bad, n) {
        forall k | k in l.items ensures !bad(l.items[k]) { assert k !in Where(l.items, bad); }
      }
    } else {
      mid := MinNonce(Where(l.items, bad));
      forall n | n in l.items ensures CleanUpTo(l.items, bad, n) <==> n < mid {
        CleanBelow(l.items, bad, mid, n);
      }
    }
  }

  /** A price is strictly higher, and higher by the bump percentage up to less than one unit. */
  ghost predicate Raises(before: int, after: int, priceBump: nat) {
    before < after && before * (100 + priceBump) - 100 < 100 * after
  }

  lemma OutbidsRaises(tx: Tx, prev: Tx, priceBump: nat)
    ensures Outbids(tx, prev, priceBump) <==> Raises(prev.gasPrice, tx.gasPrice, priceBump)
  {
  }

  /** Offer a sequence of transactions to a list, one after the other. */
  function AddAll(l: List, txs: seq<Tx>, priceBump: nat): List
    decreases |txs|
  {
    if txs == [] then l
    else match l.Add(txs[0], priceBump)
      case Rejected => AddAll(l, txs[1..], priceBump)
      case Added(l', _) => AddAll(l', txs[1..], priceBump)
  }

  /** Over any sequence of offers the caps stay sound, no nonce is lost, and the transaction
      at a nonce is the original one or one that pays strictly more, by the bump at least. */
  lemma {:induction false} PricesOnlyClimb(l: List, txs: seq<Tx>, priceBump: nat)
    requires l.Valid()
    ensures AddAll(l, txs, priceBump).Valid() && AddAll(l, txs, priceBump).strict == l.strict
    ensures forall n :: n in l.items ==>
              var r := AddAll(l, txs, priceBump);
              n in r.items && (r.items[n] == l.items[n] || Raises(l.items[n].gasPrice, r.items[n].gasPrice, priceBump))
    decreases |txs|
  {
    hide Outbids;
    if txs != [] {
      if txs[0].nonce in l.items {
        OutbidsRaises(txs[0], l.items[txs[0].nonce], priceBump);
      }
      match l.Add(txs[0], priceBump)
      case Rejected => PricesOnlyClimb(l, txs[1..], priceBump);
      case Added(l', _) => PricesOnlyClimb(l', txs[1..], priceBump);
    }
  }

  class TxList {
    const strict: bool
    const txs: TxSortedMap
    var costcap: int
    var gascap: nat

    function View(): List
      reads this, txs
    {
      List(strict, txs.items, costcap, gascap)
    }

    ghost predicate Valid()
      reads this, txs, txs.index
    {
      txs.Valid() && View().Valid()
    }

    constructor (strict: bool)
      ensures Valid() && View() == NewList(strict) && fresh(txs) && fresh(txs.index)
    {
      this.strict := strict;
      txs := new TxSortedMap();
      costcap, gascap := 0, 0;
    }

    predicate Overlaps(tx: Tx)
      reads this, txs
      ensures Overlaps(tx) <==> tx.nonce in View().items
    {
      txs.Get(tx.nonce) != None
    }

    method Add(tx: Tx, priceBump: nat) returns (inserted: bool, replaced: Option<Tx>)
      requires Valid()
      modifies this, txs, txs.index
      ensures Valid()
      ensures match old(View()).Add(tx, priceBump)
              case Rejected => !inserted && replaced == None && View() == old(View())
              case Added(l, r) => inserted && replaced == r && View() == l
      ensures inserted <==>
                (tx.nonce in old(txs.items) ==> Raises(old(txs.items)[tx.nonce].gasPrice, tx.gasPrice, priceBump))
      ensures txs.items == if inserted then old(txs.items)[tx.nonce := tx] else old(txs.items)
    {
      var prev := txs.Get(tx.nonce);
      if prev.Some? {
        var threshold := prev.value.gasPrice * (100 + priceBump) / 100;
        if prev.value.gasPrice >= tx.gasPrice || threshold > tx.gasPrice {
          return false, None;
        }
      }
      txs.Put(tx);
      if costcap < tx.Cost() {
        costcap := tx.Cost();
      }
      if gascap < tx.gas {
        gascap := tx.gas;
      }
      return true, prev;
    }

    method Forward(threshold: nat) returns (removed: seq<Tx>)
      requires Valid()
      modifies this, txs, txs.index
      ensures Valid() && View() == old(View()).Forward(threshold)
      ensures SortedContents(removed, Below(old(View()).items, threshold))
    {
      hide Below, SortedContents;
      removed := txs.Forward(threshold);
    }

    method Filter(costLimit: int, gasLimit: nat) returns (removed: seq<Tx>, invalids: seq<Tx>)
      requires Valid()
      modifies this, txs, txs.index
      ensures Valid() && View() == old(View()).Filter(costLimit, gasLimit).list
      ensures Enumerates(removed, old(View()).Filter(costLimit, gasLimit).removed)
      ensures Enumerates(invalids, old(View()).Filter(costLimit, gasLimit).invalids)
    {
      hide Where, WhereNot, NonceAbove, Unpayable, Enumerates, Indexed, Cached, List.Filter, List.Valid;
      ghost var l := View();
      FilterByParts(l, costLimit, gasLimit);
      if costcap <= costLimit && gascap <= gasLimit {
        return [], [];
      }
      costcap, gascap := costLimit, gasLimit;
      removed := txs.Filter(Unpayable(costLimit, gasLimit));
      invalids := [];
      EnumeratesNonEmpty(removed, Where(l.items, Unpayable(costLimit, gasLimit)));
      if strict && |removed| > 0 {
        var lowest := LowestNonce(removed, Where(l.items, Unpayable(costLimit, gasLimit)));
        invalids := txs.Filter(NonceAbove(lowest));
      }
    }

    method Cap(threshold: nat) returns (drops: seq<Tx>)
      requires Valid()
      modifies this, txs, txs.index
      ensures Valid() && View() == old(View()).Cap(threshold)
      ensures Enumerates(drops, old(View()).items - View().items.Keys)
    {
      hide Enumerates;
      drops := txs.Cap(threshold);
    }

    method Remove(tx: Tx) returns (found: bool, invalids: seq<Tx>)
      requires Valid()
      modifies this, txs, txs.index
      ensures Valid() && found == (tx.nonce in old(View()).items) && View() == old(View()).Remove(tx.nonce)
      ensures Enumerates(invalids, old(View()).Invalidated(tx.nonce))
    {
      hide Where, WhereNot, NonceAbove, Enumerates, Indexed, Cached, List.Remove, List.Invalidated, List.Valid;
      RemoveByParts(View(), tx.nonce);
      invalids := [];
      found := txs.Remove(tx.nonce);
      if found && strict {
        invalids := txs.Filter(NonceAbove(tx.nonce));
      }
    }

    method Ready(start: nat) returns (ready: seq<Tx>)
      requires Valid()
      modifies this, txs, txs.index
      ensures Valid() && View() == old(View()).Ready(start)
      ensures SortedContents(ready, Below(old(View()).items, ReadyEnd(old(View()).items, start)))
    {
      hide Below, SortedContents;
      ready := txs.Ready(start);
    }
  }

  lemma EnumeratesNonEmpty(s: seq<Tx>, m: Items)
    requires Enumerates(s, m)
    ensures |s| > 0 <==> m != map[]
  {
    assert m != map[] ==> |m.Keys| != 0;
  }

  /** The loop over the removed transactions that finds their smallest nonce. */
  method LowestNonce(removed: seq<Tx>, ghost m: Items) returns (lowest: nat)
    requires |removed| > 0 && Enumerates(removed, m) && Keyed(m)
    ensures m != map[] && lowest == MinNonce(m)
  {
    lowest := removed[0].nonce;
    for i := 0 to |removed|
      invariant exists j :: 0 <= j < |removed| && lowest == removed[j].nonce
      invariant forall j :: 0 <= j < i ==> lowest <= removed[j].nonce
    {
      if lowest > removed[i].nonce {
        lowest := removed[i].nonce;
      }
    }
    forall k | k in m ensures lowest <= k {
      assert m[k] in removed;
    }
  }

  /** `Filter` of a list, spelled out as the passes the sorted map makes. */
  lemma FilterByParts(l: List, costLimit: int, gasLimit: nat)
    requires l.Valid()
    ensures Enumerates([], map[]) && l.Filter(costLimit, gasLimit).list.Valid()
    ensures Keyed(Where(l.items, Unpayable(costLimit, gasLimit)))
    ensures var r, bad := l.Filter(costLimit, gasLimit), Unpayable(costLimit, gasLimit);
            if l.costcap <= costLimit && l.gascap <= gasLimit then r == Filtered(l, map[], map[])
            else
              var kept := WhereNot(l.items, bad);
              if l.strict && Where(l.items, bad) != map[] then
                var above := NonceAbove(MinNonce(Where(l.items, bad)));
                r == Filtered(List(l.strict, WhereNot(kept, above), costLimit, gasLimit),
                              Where(l.items, bad), Where(kept, above))
              else
                r == Filtered(List(l.strict, kept, costLimit, gasLimit), Where(l.items, bad), map[])
  {
    FilterIsComplete(l, costLimit, gasLimit);
    var bad := Unpayable(costLimit, gasLimit);
    if l.strict && Where(l.items, bad) != map[] {
      AboveLowest(l.items, bad, WhereNot(l.items, bad), MinNonce(Where(l.items, bad)));
    }
  }

  lemma AboveLowest(m: Items, bad: Tx -> bool, kept: Items, lowest: nat)
    requires Keyed(m) && kept == WhereNot(m, bad) && Where(m, bad) != map[] && lowest == MinNonce(Where(m, bad))
    ensures WhereNot(kept, NonceAbove(lowest)) == Below(kept, lowest)
    ensures Where(kept, NonceAbove(lowest)) == From(kept, lowest)
  {
    assert lowest !in kept;
  }

  lemma RemoveByParts(l: List, n: nat)
    requires l.Valid()
    ensures Enumerates([], map[]) && l.Remove(n).Valid()
    ensures l.Invalidated(n) == if n in l.items && l.strict then Where(l.items - {n}, NonceAbove(n)) else map[]
    ensures l.Remove(n) == l.(items := if n in l.items && l.strict then WhereNot(l.items - {n}, NonceAbove(n))
                                       else l.items - {n})
  {
    RemainsValid(l, n);
    AboveAndBelow(l.items, n);
    hide Where, WhereNot, Below, From, List.Valid;
  }

  lemma RemainsValid(l: List, n: nat)
    requires l.Valid()
    ensures l.Remove(n).Valid() && Enumerates([], map[])
  {
  }

  lemma AboveAndBelow(m: Items, n: nat)
    requires Keyed(m)
    ensures WhereNot(m - {n}, NonceAbove(n)) == Below(m, n)
    ensures Where(m - {n}, NonceAbove(n)) == From(m, n + 1)
  {
  }
}
