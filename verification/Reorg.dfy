/** core/blockchain.go, `reorg` and `insert`: switching the canonical chain from one block to
    another, with the number index and the transaction lookup index. */
module Reorgs {
  import opened TxTypes
  import opened ChainTree

  type TxHash = nat

  /** The transactions of the stored blocks. */
  type Bodies = map<Hash, seq<TxHash>>

  function TxsIn(bodies: Bodies, h: Hash): seq<TxHash> {
    if h in bodies then bodies[h] else []
  }

  function Get(lookup: map<TxHash, Hash>, tx: TxHash): Option<Hash> {
    if tx in lookup then Some(lookup[tx]) else None
  }

  function OrElse(a: Option<Hash>, b: Option<Hash>): Option<Hash> {
    if a.Some? then a else b
  }

  /** The youngest block of a branch that contains tx. */
  ghost function FirstIn(bodies: Bodies, chain: seq<Hash>, tx: TxHash): Option<Hash> {
    if chain == [] then None
    else if tx in TxsIn(bodies, chain[0]) then Some(chain[0])
    else FirstIn(bodies, chain[1..], tx)
  }

  /** core/types/transaction.go, `TxDifference`: those of a that are not in b, in order. */
  method TxDifference(a: seq<TxHash>, b: seq<TxHash>) returns (keep: seq<TxHash>)
    ensures keep == Minus(a, b)
    ensures forall tx :: tx in keep <==> tx in a && tx !in b
  {
    var remove := set i | 0 <= i < |b| :: b[i];
    keep := [];
    for i := 0 to |a|
      invariant keep == Minus(a[..i], b) && forall tx :: tx in keep <==> tx in a[..i] && tx !in b
    {
      assert a[..i + 1][..i] == a[..i];
      assert a[i] in remove <==> a[i] in b;
      if a[i] !in remove {
        keep := keep + [a[i]];
      }
    }
    assert a[..|a|] == a;
  }

  function Minus(a: seq<TxHash>, b: seq<TxHash>): seq<TxHash> {
    if a == [] then []
    else Minus(a[..|a| - 1], b) + (if a[|a| - 1] in b then [] else [a[|a| - 1]])
  }

  /** chain lists h and its ancestors, youngest first. */
  ghost predicate IsBranch(hs: Headers, h: Hash, chain: seq<Hash>) {
    forall i :: 0 <= i < |chain| ==> Up(hs, h, i) == Some(chain[i])
  }

  /** No block of the chain is among the ancestors of h. */
  ghost predicate Foreign(hs: Headers, chain: seq<Hash>, h: Hash) {
    forall i, k: nat :: 0 <= i < |chain| ==> Up(hs, h, k) != Some(chain[i])
  }

  /** The youngest block in the ancestry of h that contains tx. */
  ghost function Owner(hs: Headers, bodies: Bodies, h: Hash, tx: TxHash): Option<Hash>
    requires Numbered(hs)
    decreases if h in hs then hs[h].number else 0
  {
    if h !in hs then None
    else if tx in TxsIn(bodies, h) then Some(h)
    else if HasParent(hs, h) then Owner(hs, bodies, hs[h].parent, tx)
    else None
  }

  /** The lookup index of the chain ending in h: each transaction points at its owner. */
  ghost predicate IsLookup(hs: Headers, bodies: Bodies, lookup: map<TxHash, Hash>, h: Hash)
    requires Numbered(hs)
  {
    forall tx :: Owner(hs, bodies, h, tx) == Get(lookup, tx)
  }

  /** tx sits in a block of h's ancestry. */
  ghost predicate InChain(hs: Headers, bodies: Bodies, h: Hash, tx: TxHash) {
    exists k: nat :: Up(hs, h, k).Some? && tx in TxsIn(bodies, Up(hs, h, k).value)
  }

  /** tx sits in a block of a's ancestry that is not in b's. */
  ghost predicate Only(hs: Headers, bodies: Bodies, a: Hash, b: Hash, tx: TxHash) {
    exists k: nat ::
      Up(hs, a, k).Some? && !IsAncestor(hs, Up(hs, a, k).value, b) && tx in TxsIn(bodies, Up(hs, a, k).value)
  }

  /** tx sits in a block of both ancestries. */
  ghost predicate Both(hs: Headers, bodies: Bodies, a: Hash, b: Hash, tx: TxHash) {
    exists k: nat ::
      Up(hs, a, k).Some? && IsAncestor(hs, Up(hs, a, k).value, b) && tx in TxsIn(bodies, Up(hs, a, k).value)
  }

  /** tx is dropped with the old branch: it is not in the new one. */
  ghost predicate Dropped(hs: Headers, bodies: Bodies, oldHead: Hash, newHead: Hash, tx: TxHash) {
    Only(hs, bodies, oldHead, newHead, tx) && !Only(hs, bodies, newHead, oldHead, tx)
  }

  /** No transaction that is dropped also occurs in the common ancestry. */
  ghost predicate NoneRepeats(hs: Headers, bodies: Bodies, oldHead: Hash, newHead: Hash) {
    forall tx :: Dropped(hs, bodies, oldHead, newHead, tx) ==> !Both(hs, bodies, oldHead, newHead, tx)
  }

  /** Every ancestor of h is the canonical block of its height. */
  ghost predicate IsCanonical(hs: Headers, canon: map<nat, Hash>, h: Hash) {
    forall a :: IsAncestor(hs, a, h) ==> a in hs && hs[a].number in canon && canon[hs[a].number] == a
  }

  datatype Split = Unrelated | Split(common: Hash, oldChain: seq<Hash>, newChain: seq<Hash>)

  class BlockChain {
    var headers: Headers
    var bodies: Bodies
    var canon: map<nat, Hash>
    var lookup: map<TxHash, Hash>
    var head: Hash

    function Parent(h: Hash): Option<Hash>
      requires h in headers
      reads this
    {
      if HasParent(headers, h) then Some(headers[h].parent) else None
    }

    /** Walk from h down to a height, collecting what is passed. */
    method Descend(h: Hash, number: nat) returns (end: Option<Hash>, chain: seq<Hash>)
      requires Numbered(headers) && h in headers && number <= headers[h].number
      ensures IsBranch(headers, h, chain) && end == Up(headers, h, |chain|)
      ensures forall i :: 0 <= i < |chain| ==> chain[i] in headers && headers[chain[i]].number > number
      ensures end.Some? ==> end.value in headers && headers[end.value].number == number
    {
      end, chain := Some(h), [];
      while end.Some? && headers[end.value].number != number
        invariant IsBranch(headers, h, chain) && end == Up(headers, h, |chain|)
        invariant end.Some? ==> end.value in headers && headers[end.value].number >= number
        invariant forall i :: 0 <= i < |chain| ==> chain[i] in headers && headers[chain[i]].number > number
        decreases if end.Some? then headers[end.value].number + 1 else 0
      {
        UpNext(headers, h, |chain|);
        chain := chain + [end.value];
        end := Parent(end.value);
      }
    }

    /** The search of `reorg`: the highest common ancestor and the two branches above it. */
    method FindSplit(oldHead: Hash, newHead: Hash) returns (r: Split)
      requires Numbered(headers) && oldHead in headers && newHead in headers
      ensures r.Unrelated? <==> forall a :: !(IsAncestor(headers, a, oldHead) && IsAncestor(headers, a, newHead))
      ensures r.Split? ==>
                && IsBranch(headers, oldHead, r.oldChain) && Up(headers, oldHead, |r.oldChain|) == Some(r.common)
                && IsBranch(headers, newHead, r.newChain) && Up(headers, newHead, |r.newChain|) == Some(r.common)
                && Foreign(headers, r.oldChain, newHead) && Foreign(headers, r.newChain, oldHead)
    {
      hide IsBranch, Foreign;
      var old', new': Option<Hash>, oldChain, newChain := Some(oldHead), Some(newHead), [], [];
      if headers[oldHead].number > headers[newHead].number {
        old', oldChain := Descend(oldHead, headers[newHead].number);
      } else {
        new', newChain := Descend(newHead, headers[oldHead].number);
      }
      SplitStart(headers, oldHead, newHead, oldChain, newChain, old', new');
      while old'.Some? && new'.Some? && old' != new'
        invariant Splitting(headers, oldHead, newHead, oldChain, newChain, old', new')
        decreases if old'.Some? then headers[old'.value].number + 1 else 0
      {
        hide Splitting;
        SplitStep(headers, oldHead, newHead, oldChain, newChain, old'.value, new'.value);
        oldChain, newChain := oldChain + [old'.value], newChain + [new'.value];
        old', new' := Parent(old'.value), Parent(new'.value);
      }
      SplitEnd(headers, oldHead, newHead, oldChain, newChain, old', new');
      if old'.None? || new'.None? {
        return Unrelated;
      }
      return Split(old'.value, oldChain, newChain);
    }

    /** Make a block canonical and the current one. */
    method Insert(h: Hash)
      requires h in headers
      modifies this`canon, this`head
      ensures canon == old(canon)[headers[h].number := h] && head == h
    {
      canon := canon[headers[h].number := h];
      head := h;
    }

    /** `WriteTxLookupEntries`. */
    method WriteLookup(h: Hash)
      modifies this`lookup
      ensures forall tx :: Get(lookup, tx) == if tx in TxsIn(bodies, h) then Some(h) else Get(old(lookup), tx)
    {
      var txs := TxsIn(bodies, h);
      for i := 0 to |txs|
        invariant forall tx :: Get(lookup, tx) == if tx in txs[..i] then Some(h) else Get(old(lookup), tx)
      {
        assert txs[..i + 1] == txs[..i] + [txs[i]];
        lookup := lookup[txs[i] := h];
      }
      assert txs[..|txs|] == txs;
    }

    /** Insert the new branch, oldest block first. */
    method Adopt(chain: seq<Hash>) returns (added: seq<TxHash>)
      requires Descending(headers, chain)
      modifies this`canon, this`head, this`lookup
      ensures chain != [] ==> head == chain[0]
      ensures chain == [] ==> head == old(head)
      ensures Rebuilt(headers, old(canon), canon, chain)
      ensures forall tx :: Get(lookup, tx) == OrElse(FirstIn(bodies, chain, tx), Get(old(lookup), tx))
      ensures forall tx :: tx in added <==> FirstIn(bodies, chain, tx).Some?
    {
      hide Rebuilt;
      added := [];
      AdoptStart(headers, canon, chain);
      for i := |chain| downto 0
        invariant i < |chain| ==> head == chain[i]
        invariant i == |chain| ==> head == old(head)
        invariant Rebuilt(headers, old(canon), canon, chain[i..])
        invariant forall tx :: Get(lookup, tx) == OrElse(FirstIn(bodies, chain[i..], tx), Get(old(lookup), tx))
        invariant forall tx :: tx in added <==> FirstIn(bodies, chain[i..], tx).Some?
      {
        assert chain[i..] == [chain[i]] + chain[i + 1..];
        RebuiltMore(headers, old(canon), canon, chain[i + 1..], chain[i]);
        Insert(chain[i]);
        WriteLookup(chain[i]);
        added := added + TxsIn(bodies, chain[i]);
      }
      assert chain[0..] == chain;
    }

    /** Drop lookup entries. */
    method DropLookup(txs: seq<TxHash>)
      modifies this`lookup
      ensures forall tx :: Get(lookup, tx) == if tx in txs then None else Get(old(lookup), tx)
    {
      for i := 0 to |txs|
        invariant forall tx :: Get(lookup, tx) == if tx in txs[..i] then None else Get(old(lookup), tx)
      {
        assert txs[..i + 1] == txs[..i] + [txs[i]];
        lookup := lookup - {txs[i]};
      }
      assert txs[..|txs|] == txs;
    }

    /** Switch to newHead. If oldHead's ancestry was canonical, newHead's is afterwards. If the
        lookup index was that of oldHead, it becomes that of newHead exactly when no transaction
        of the old branch missing from the new one also occurs in the common ancestry. */
    method Reorg(oldHead: Hash, newHead: Hash) returns (r: Split)
      requires Numbered(headers) && oldHead in headers && newHead in headers
      modifies this`canon, this`head, this`lookup
      ensures r.Unrelated? <==> forall a :: !(IsAncestor(headers, a, oldHead) && IsAncestor(headers, a, newHead))
      ensures r.Unrelated? ==> canon == old(canon) && head == old(head) && lookup == old(lookup)
      ensures r.Split? ==>
                && IsBranch(headers, oldHead, r.oldChain) && Up(headers, oldHead, |r.oldChain|) == Some(r.common)
                && IsBranch(headers, newHead, r.newChain) && Up(headers, newHead, |r.newChain|) == Some(r.common)
                && Foreign(headers, r.oldChain, newHead) && Foreign(headers, r.newChain, oldHead)
      ensures r.Split? ==> head == if r.newChain == [] then old(head) else newHead
      ensures r.Split? ==>
                && r.common in headers
                && forall n :: n in old(canon) && n <= headers[r.common].number ==>
                     n in canon && canon[n] == old(canon)[n]
      ensures r.Split? && IsCanonical(headers, old(canon), oldHead) ==> IsCanonical(headers, canon, newHead)
      ensures r.Split? && IsLookup(headers, bodies, old(lookup), oldHead) ==>
                (IsLookup(headers, bodies, lookup, newHead) <==> NoneRepeats(headers, bodies, oldHead, newHead))
      ensures r.Split? ==> forall tx :: Dropped(headers, bodies, oldHead, newHead, tx) ==> tx !in lookup
    {
      hide IsBranch, Foreign, IsCanonical, IsLookup, Rebuilt, NoneRepeats, Only, Dropped;
      r := FindSplit(oldHead, newHead);
      if r.Split? {
        BranchStored(headers, newHead, r.newChain, r.common);
        BranchStored(headers, oldHead, r.oldChain, r.common);
        var deleted := Transactions(r.oldChain);
        var added := Adopt(r.newChain);
        var gone := TxDifference(deleted, added);
        DropLookup(gone);
        CanonSwitched(headers, old(canon), canon, oldHead, newHead, r.oldChain, r.newChain, r.common);
        DroppedIs(headers, bodies, oldHead, newHead, r.oldChain, r.newChain, r.common);
        LookupSwitched(headers, bodies, old(lookup), lookup, oldHead, newHead, r.oldChain, r.newChain, r.common);
        LookupDrops(headers, bodies, lookup, oldHead, newHead);
      }
    }

    /** The transactions of the blocks passed, in order. */
    method Transactions(chain: seq<Hash>) returns (txs: seq<TxHash>)
      ensures forall tx :: tx in txs <==> FirstIn(bodies, chain, tx).Some?
    {
      txs := [];
      for i := 0 to |chain|
        invariant forall tx :: tx in txs <==> FirstIn(bodies, chain[..i], tx).Some?
      {
        forall tx ensures FirstIn(bodies, chain[..i + 1], tx).Some? <==>
                            FirstIn(bodies, chain[..i], tx).Some? || tx in TxsIn(bodies, chain[i])
        {
          assert chain[..i + 1] == chain[..i] + [chain[i]];
          FirstInLast(bodies, chain[..i], chain[i], tx);
        }
        txs := txs + TxsIn(bodies, chain[i]);
      }
      assert chain[..|chain|] == chain;
    }
  }

  /** Two walks at the same height; nothing passed so far is common to both ancestries. */
  ghost predicate Splitting(hs: Headers, oldHead: Hash, newHead: Hash, oldChain: seq<Hash>, newChain: seq<Hash>,
                            a: Option<Hash>, b: Option<Hash>)
  {
    && IsBranch(hs, oldHead, oldChain) && IsBranch(hs, newHead, newChain)
    && Foreign(hs, oldChain, newHead) && Foreign(hs, newChain, oldHead)
    && a == Up(hs, oldHead, |oldChain|) && b == Up(hs, newHead, |newChain|)
    && (a.Some? ==> a.value in hs) && (b.Some? ==> b.value in hs)
    && (a.Some? && b.Some? ==> hs[a.value].number == hs[b.value].number)
  }

  /** Blocks above h's height are not among its ancestors. */
  lemma TooHigh(hs: Headers, chain: seq<Hash>, h: Hash)
    requires Numbered(hs) && h in hs
    requires forall i :: 0 <= i < |chain| ==> chain[i] in hs && hs[chain[i]].number > hs[h].number
    ensures Foreign(hs, chain, h)
  {
    forall i, k: nat | 0 <= i < |chain| && Up(hs, h, k).Some? ensures Up(hs, h, k) != Some(chain[i]) {
      UpNumber(hs, h, k);
    }
  }

  /** Of two blocks at the same height, h's ancestry contains at most one. */
  lemma OneAtHeight(hs: Headers, h: Hash, j: nat, a: Hash)
    requires Numbered(hs) && Up(hs, h, j).Some? && a in hs && a != Up(hs, h, j).value
    requires hs[a].number == (UpIn(hs, h, j); hs[Up(hs, h, j).value].number)
    ensures forall k: nat :: Up(hs, h, k) != Some(a)
  {
    UpNumber(hs, h, j);
    forall k: nat | Up(hs, h, k).Some? ensures Up(hs, h, k) != Some(a) {
      UpNumber(hs, h, k);
    }
  }

  lemma SplitStep(hs: Headers, oldHead: Hash, newHead: Hash, oldChain: seq<Hash>, newChain: seq<Hash>, a: Hash, b: Hash)
    requires Numbered(hs) && Splitting(hs, oldHead, newHead, oldChain, newChain, Some(a), Some(b)) && a != b
    ensures a in hs && b in hs
    ensures var a' := if HasParent(hs, a) then Some(hs[a].parent) else None;
            var b' := if HasParent(hs, b) then Some(hs[b].parent) else None;
            && Splitting(hs, oldHead, newHead, oldChain + [a], newChain + [b], a', b')
            && (a'.Some? ==> hs[a'.value].number < hs[a].number)
  {
    UpNext(hs, oldHead, |oldChain|);
    UpNext(hs, newHead, |newChain|);
    OneAtHeight(hs, newHead, |newChain|, a);
    OneAtHeight(hs, oldHead, |oldChain|, b);
  }

  lemma SplitStart(hs: Headers, oldHead: Hash, newHead: Hash, oldChain: seq<Hash>, newChain: seq<Hash>, a: Option<Hash>,
                   b: Option<Hash>)
    requires Numbered(hs) && oldHead in hs && newHead in hs
    requires IsBranch(hs, oldHead, oldChain) && IsBranch(hs, newHead, newChain)
    requires a == Up(hs, oldHead, |oldChain|) && b == Up(hs, newHead, |newChain|)
    requires oldChain == [] || newChain == []
    requires forall i :: 0 <= i < |oldChain| ==> oldChain[i] in hs && hs[oldChain[i]].number > hs[newHead].number
    requires forall i :: 0 <= i < |newChain| ==> newChain[i] in hs && hs[newChain[i]].number > hs[oldHead].number
    requires a.Some? && b.Some? ==> a.value in hs && b.value in hs && hs[a.value].number == hs[b.value].number
    ensures Splitting(hs, oldHead, newHead, oldChain, newChain, a, b)
  {
    TooHigh(hs, oldChain, newHead);
    TooHigh(hs, newChain, oldHead);
    if a.Some? { UpIn(hs, oldHead, |oldChain|); }
    if b.Some? { UpIn(hs, newHead, |newChain|); }
  }

  /** When the walks stop, they have met in a common ancestor or there is none. */
  lemma SplitEnd(hs: Headers, oldHead: Hash, newHead: Hash, oldChain: seq<Hash>, newChain: seq<Hash>, a: Option<Hash>,
                 b: Option<Hash>)
    requires Splitting(hs, oldHead, newHead, oldChain, newChain, a, b) && (a.None? || b.None? || a == b)
    ensures (a.None? || b.None?) <==> forall x :: !(IsAncestor(hs, x, oldHead) && IsAncestor(hs, x, newHead))
  {
    if a.Some? && b.Some? {
      assert IsAncestor(hs, a.value, oldHead) && IsAncestor(hs, a.value, newHead);
    } else {
      forall x: Hash | IsAncestor(hs, x, oldHead) ensures !IsAncestor(hs, x, newHead) {
        var k: nat :| Up(hs, oldHead, k) == Some(x);
        if k < |oldChain| {
          assert oldChain[k] == x;
        } else if a.None? {
          UpEnds(hs, oldHead, |oldChain|, k);
        } else {
          forall j: nat ensures Up(hs, newHead, j) != Some(x) {
            if j < |newChain| {
              assert Up(hs, oldHead, k) != Some(newChain[j]);
            } else {
              UpEnds(hs, newHead, |newChain|, j);
            }
          }
        }
      }
    }
  }

  /** A stored branch, highest block first. */
  ghost predicate Descending(hs: Headers, chain: seq<Hash>) {
    && (forall i :: 0 <= i < |chain| ==> chain[i] in hs)
    && (forall i, j :: 0 <= i < j < |chain| ==> hs[chain[i]].number > hs[chain[j]].number)
  }

  /** The chain has a block at height n. */
  ghost predicate Reaches(hs: Headers, chain: seq<Hash>, n: nat) {
    exists i :: 0 <= i < |chain| && chain[i] in hs && hs[chain[i]].number == n
  }

  /** The number index after a branch was written into it. */
  ghost predicate Rebuilt(hs: Headers, canon0: map<nat, Hash>, canon: map<nat, Hash>, chain: seq<Hash>) {
    && Descending(hs, chain)
    && (forall i :: 0 <= i < |chain| ==> hs[chain[i]].number in canon && canon[hs[chain[i]].number] == chain[i])
    && (forall n: nat :: !Reaches(hs, chain, n) ==>
          (n in canon <==> n in canon0) && (n in canon ==> canon[n] == canon0[n]))
  }

  lemma AdoptStart(hs: Headers, canon: map<nat, Hash>, chain: seq<Hash>)
    ensures Rebuilt(hs, canon, canon, chain[|chain|..])
  {
  }

  lemma RebuiltMore(hs: Headers, canon0: map<nat, Hash>, canon: map<nat, Hash>, chain: seq<Hash>, h: Hash)
    requires Rebuilt(hs, canon0, canon, chain) && Descending(hs, [h] + chain)
    ensures h in hs && Rebuilt(hs, canon0, canon[hs[h].number := h], [h] + chain)
  {
    var chain', canon' := [h] + chain, canon[hs[h].number := h];
    assert chain'[0] == h;
    forall i | 0 <= i < |chain'| ensures hs[chain'[i]].number in canon' && canon'[hs[chain'[i]].number] == chain'[i] {
      assert i > 0 ==> chain'[i] == chain[i - 1] && hs[chain'[0]].number > hs[chain'[i]].number;
    }
    forall n: nat | Reaches(hs, chain, n) ensures Reaches(hs, chain', n) {
      var i :| 0 <= i < |chain| && chain[i] in hs && hs[chain[i]].number == n;
      assert chain'[i + 1] == chain[i];
    }
  }

  lemma BranchStored(hs: Headers, h: Hash, chain: seq<Hash>, common: Hash)
    requires Numbered(hs) && IsBranch(hs, h, chain) && Up(hs, h, |chain|) == Some(common)
    ensures common in hs && Descending(hs, chain)
    ensures forall n: nat :: Reaches(hs, chain, n) ==> n > hs[common].number
    ensures chain != [] ==> chain[0] == h
  {
    UpNumber(hs, h, |chain|);
    forall i | 0 <= i < |chain| ensures chain[i] in hs && hs[chain[i]].number + i == hs[h].number {
      UpNumber(hs, h, i);
    }
    assert chain != [] ==> Up(hs, h, 0) == Some(chain[0]) && h in hs;
  }

  /** The new head's ancestry is the new branch and the ancestry both heads share. */
  lemma CanonSwitched(hs: Headers, canon0: map<nat, Hash>, canon: map<nat, Hash>, oldHead: Hash, newHead: Hash,
                      oldChain: seq<Hash>, newChain: seq<Hash>, common: Hash)
    requires Numbered(hs) && IsBranch(hs, newHead, newChain) && Up(hs, newHead, |newChain|) == Some(common)
    requires Up(hs, oldHead, |oldChain|) == Some(common) && Rebuilt(hs, canon0, canon, newChain)
    ensures common in hs
    ensures forall n :: n in canon0 && n <= hs[common].number ==> n in canon && canon[n] == canon0[n]
    ensures IsCanonical(hs, canon0, oldHead) ==> IsCanonical(hs, canon, newHead)
  {
    BranchStored(hs, newHead, newChain, common);
    forall n | n in canon0 && n <= hs[common].number ensures n in canon && canon[n] == canon0[n] {
      assert !Reaches(hs, newChain, n);
    }
    if IsCanonical(hs, canon0, oldHead) {
      forall a | IsAncestor(hs, a, newHead) ensures a in hs && hs[a].number in canon && canon[hs[a].number] == a {
        var k: nat :| Up(hs, newHead, k) == Some(a);
        if k < |newChain| {
          assert newChain[k] == a;
        } else {
          SharedAncestor(hs, oldHead, newHead, |oldChain|, |newChain|, common, k);
        }
      }
    }
  }

  lemma SharedAncestor(hs: Headers, oldHead: Hash, newHead: Hash, i: nat, j: nat, common: Hash, k: nat)
    requires Numbered(hs) && Up(hs, oldHead, i) == Some(common) == Up(hs, newHead, j) && j <= k &&
             Up(hs, newHead, k).Some?
    ensures IsAncestor(hs, Up(hs, newHead, k).value, oldHead)
    ensures var a := Up(hs, newHead, k).value; a in hs && common in hs && hs[a].number <= hs[common].number
  {
    hide Up, Numbered, IsAncestor;
    SharedFrom(hs, newHead, oldHead, j, i, common, k);
    UpUp(hs, newHead, j, k - j);
    UpNumber(hs, common, k - j);
    UpIn(hs, common, k - j);
  }

  lemma {:induction false} FirstInLast(bodies: Bodies, chain: seq<Hash>, h: Hash, tx: TxHash)
    ensures FirstIn(bodies, chain + [h], tx).Some? <==> FirstIn(bodies, chain, tx).Some? || tx in TxsIn(bodies, h)
  {
    if chain == [] {
      assert chain + [h] == [h];
    } else {
      assert (chain + [h])[1..] == chain[1..] + [h];
      FirstInLast(bodies, chain[1..], h, tx);
    }
  }

  /** Who owns a transaction is decided in the branch, or else below it. */
  lemma {:induction false} OwnerSplit(hs: Headers, bodies: Bodies, h: Hash, chain: seq<Hash>, common: Hash, tx: TxHash)
    requires Numbered(hs) && IsBranch(hs, h, chain) && Up(hs, h, |chain|) == Some(common)
    ensures Owner(hs, bodies, h, tx) == OrElse(FirstIn(bodies, chain, tx), Owner(hs, bodies, common, tx))
    decreases |chain|
  {
    if chain != [] {
      assert Up(hs, h, 0) == Some(chain[0]);
      var p := hs[h].parent;
      assert Up(hs, p, |chain| - 1) == Some(common);
      UpIn(hs, p, |chain| - 1);
      forall i | 0 <= i < |chain| - 1 ensures Up(hs, p, i) == Some(chain[1..][i]) {
        assert Up(hs, h, i + 1) == Some(chain[i + 1]);
      }
      OwnerSplit(hs, bodies, p, chain[1..], common, tx);
    }
  }

  lemma LookupSwitched(hs: Headers, bodies: Bodies, lookup0: map<TxHash, Hash>, lookup: map<TxHash, Hash>,
                       oldHead: Hash, newHead: Hash, oldChain: seq<Hash>, newChain: seq<Hash>, common: Hash)
    requires Numbered(hs)
    requires IsBranch(hs, oldHead, oldChain) && Up(hs, oldHead, |oldChain|) == Some(common)
    requires IsBranch(hs, newHead, newChain) && Up(hs, newHead, |newChain|) == Some(common)
    requires Foreign(hs, oldChain, newHead) && Foreign(hs, newChain, oldHead)
    requires forall tx :: Get(lookup, tx) ==
               if FirstIn(bodies, oldChain, tx).Some? && FirstIn(bodies, newChain, tx).None? then None
               else OrElse(FirstIn(bodies, newChain, tx), Get(lookup0, tx))
    ensures IsLookup(hs, bodies, lookup0, oldHead) ==>
              (IsLookup(hs, bodies, lookup, newHead) <==> NoneRepeats(hs, bodies, oldHead, newHead))
  {
    hide IsBranch, Owner, FirstIn, Only, Both, Foreign, Up;
    if IsLookup(hs, bodies, lookup0, oldHead) {
      forall tx
        ensures Owner(hs, bodies, oldHead, tx) == OrElse(FirstIn(bodies, oldChain, tx), Owner(hs, bodies, common, tx))
        ensures Owner(hs, bodies, newHead, tx) == OrElse(FirstIn(bodies, newChain, tx), Owner(hs, bodies, common, tx))
      {
        OwnerSplit(hs, bodies, oldHead, oldChain, common, tx);
        OwnerSplit(hs, bodies, newHead, newChain, common, tx);
      }
      DroppedIs(hs, bodies, oldHead, newHead, oldChain, newChain, common);
      BelowIs(hs, bodies, oldHead, newHead, oldChain, common, |newChain|);
      if IsLookup(hs, bodies, lookup, newHead) {
        forall tx | Dropped(hs, bodies, oldHead, newHead, tx) ensures !Both(hs, bodies, oldHead, newHead, tx) {
          assert Owner(hs, bodies, newHead, tx) == Get(lookup, tx);
        }
      }
      if NoneRepeats(hs, bodies, oldHead, newHead) {
        forall tx ensures Owner(hs, bodies, newHead, tx) == Get(lookup, tx) {
          assert Owner(hs, bodies, oldHead, tx) == Get(lookup0, tx);
        }
      }
    }
  }

  /** What the lookup index drops is what the branches say is dropped. */
  lemma LookupDrops(hs: Headers, bodies: Bodies, lookup: map<TxHash, Hash>, oldHead: Hash, newHead: Hash)
    requires forall tx :: Dropped(hs, bodies, oldHead, newHead, tx) ==> Get(lookup, tx) == None
    ensures forall tx :: Dropped(hs, bodies, oldHead, newHead, tx) ==> tx !in lookup
  {
    hide Dropped;
    forall tx | Dropped(hs, bodies, oldHead, newHead, tx) ensures tx !in lookup {
      assert Get(lookup, tx) == None;
    }
  }

  lemma DroppedIs(hs: Headers, bodies: Bodies, oldHead: Hash, newHead: Hash, oldChain: seq<Hash>, newChain: seq<Hash>,
                  common: Hash)
    requires IsBranch(hs, oldHead, oldChain) && Up(hs, oldHead, |oldChain|) == Some(common)
    requires IsBranch(hs, newHead, newChain) && Up(hs, newHead, |newChain|) == Some(common)
    requires Foreign(hs, oldChain, newHead) && Foreign(hs, newChain, oldHead)
    ensures forall tx :: Dropped(hs, bodies, oldHead, newHead, tx) <==>
              FirstIn(bodies, oldChain, tx).Some? && FirstIn(bodies, newChain, tx).None?
  {
    hide IsBranch, Foreign, Only, FirstIn, Up;
    BranchIsOnly(hs, bodies, oldHead, newHead, oldChain, common, |newChain|);
    BranchIsOnly(hs, bodies, newHead, oldHead, newChain, common, |oldChain|);
  }

  /** A transaction has an owner exactly if it is in the chain. */
  lemma {:induction false} OwnerIs(hs: Headers, bodies: Bodies, h: Hash, tx: TxHash)
    requires Numbered(hs)
    ensures Owner(hs, bodies, h, tx).Some? <==> InChain(hs, bodies, h, tx)
    decreases if h in hs then hs[h].number else 0
  {
    if h in hs {
      assert Up(hs, h, 0) == Some(h);
      if tx !in TxsIn(bodies, h) {
        if HasParent(hs, h) {
          var p := hs[h].parent;
          OwnerIs(hs, bodies, p, tx);
          forall k: nat ensures Up(hs, h, k + 1) == Up(hs, p, k) {
          }
          if InChain(hs, bodies, p, tx) {
            var k: nat :| Up(hs, p, k).Some? && tx in TxsIn(bodies, Up(hs, p, k).value);
            assert Up(hs, h, k + 1) == Up(hs, p, k);
          }
          if InChain(hs, bodies, h, tx) {
            var k: nat :| Up(hs, h, k).Some? && tx in TxsIn(bodies, Up(hs, h, k).value);
            assert Up(hs, h, (k - 1) + 1) == Up(hs, p, k - 1);
          }
        } else {
          forall k: nat | k > 0 ensures Up(hs, h, k).None? {
            UpNext(hs, h, 0);
            UpEnds(hs, h, 1, k);
          }
        }
      }
    }
  }

  /** The common ancestor's chain holds what both chains share. */
  lemma BelowIs(hs: Headers, bodies: Bodies, a: Hash, b: Hash, chain: seq<Hash>, common: Hash, k: nat)
    requires Numbered(hs) && IsBranch(hs, a, chain) && Foreign(hs, chain, b)
    requires Up(hs, a, |chain|) == Some(common) == Up(hs, b, k)
    ensures forall tx :: Owner(hs, bodies, common, tx).Some? <==> Both(hs, bodies, a, b, tx)
  {
    hide Up, Owner, Numbered;
    forall tx ensures Owner(hs, bodies, common, tx).Some? <==> Both(hs, bodies, a, b, tx) {
      OwnerIs(hs, bodies, common, tx);
      if InChain(hs, bodies, common, tx) {
        var i: nat :| Up(hs, common, i).Some? && tx in TxsIn(bodies, Up(hs, common, i).value);
        UpUp(hs, a, |chain|, i);
        SharedFrom(hs, a, b, |chain|, k, common, |chain| + i);
      }
      if Both(hs, bodies, a, b, tx) {
        var i: nat :|
          Up(hs, a, i).Some? && IsAncestor(hs, Up(hs, a, i).value, b) && tx in TxsIn(bodies, Up(hs, a, i).value);
        NotInBranch(hs, a, b, chain, i);
        UpUp(hs, a, |chain|, i - |chain|);
      }
    }
  }

  lemma NotInBranch(hs: Headers, a: Hash, b: Hash, chain: seq<Hash>, i: nat)
    requires IsBranch(hs, a, chain) && Foreign(hs, chain, b)
    requires Up(hs, a, i).Some? && IsAncestor(hs, Up(hs, a, i).value, b)
    ensures i >= |chain|
  {
    var k: nat :| Up(hs, b, k) == Some(Up(hs, a, i).value);
  }

  /** The branch above the common ancestor holds exactly what the other side does not have. */
  lemma BranchIsOnly(hs: Headers, bodies: Bodies, a: Hash, b: Hash, chain: seq<Hash>, common: Hash, k: nat)
    requires IsBranch(hs, a, chain) && Foreign(hs, chain, b) && Up(hs, a, |chain|) == Some(common) == Up(hs, b, k)
    ensures forall tx :: FirstIn(bodies, chain, tx).Some? <==> Only(hs, bodies, a, b, tx)
  {
    hide FirstIn, Up;
    forall tx ensures FirstIn(bodies, chain, tx).Some? <==> Only(hs, bodies, a, b, tx) {
      FoundInBranch(bodies, chain, tx);
      if FirstIn(bodies, chain, tx).Some? {
        var i :| 0 <= i < |chain| && tx in TxsIn(bodies, chain[i]);
        assert Up(hs, a, i) == Some(chain[i]);
      }
      if Only(hs, bodies, a, b, tx) {
        var i: nat :|
          Up(hs, a, i).Some? && !IsAncestor(hs, Up(hs, a, i).value, b) && tx in TxsIn(bodies, Up(hs, a, i).value);
        SharedFrom(hs, a, b, |chain|, k, common, i);
        assert Up(hs, a, i) == Some(chain[i]);
      }
    }
  }

  /** From the common ancestor on the ancestries are the same. */
  lemma SharedFrom(hs: Headers, a: Hash, b: Hash, j: nat, k: nat, common: Hash, i: nat)
    requires Up(hs, a, j) == Some(common) == Up(hs, b, k) && Up(hs, a, i).Some?
    ensures i >= j ==> IsAncestor(hs, Up(hs, a, i).value, b)
  {
    hide Up;
    if i >= j {
      UpUp(hs, a, j, i - j);
      UpUp(hs, b, k, i - j);
      assert Up(hs, b, k + (i - j)) == Up(hs, a, i);
    }
  }

  lemma {:induction false} FoundInBranch(bodies: Bodies, chain: seq<Hash>, tx: TxHash)
    ensures FirstIn(bodies, chain, tx).Some? <==> exists i :: 0 <= i < |chain| && tx in TxsIn(bodies, chain[i])
  {
    if chain != [] {
      FoundInBranch(bodies, chain[1..], tx);
      if i :| 0 <= i < |chain[1..]| && tx in TxsIn(bodies, chain[1..][i]) {
        assert chain[i + 1] == chain[1..][i];
      }
    }
  }

  /** A chain of three blocks, and a fork next to the third; the second and third contain the same
      transaction. */
  const Fork: Headers := map[0 := Header(0, 0, 0, 1), 1 := Header(1, 0, 1, 1), 2 := Header(2, 1, 2, 1),
                             3 := Header(3, 1, 2, 2)]
  const ForkBodies: Bodies := map[1 := [7], 2 := [7]]

  /** Switching from block 2 to block 3, a correct lookup index loses the entry of a transaction
      that is still in the chain. */
  method RepeatIsLost() returns (bc: BlockChain)
    ensures fresh(bc) && bc.headers == Fork && bc.bodies == ForkBodies && Numbered(Fork)
    ensures IsLookup(Fork, ForkBodies, map[7 := 2], 2) && 7 !in bc.lookup
    ensures bc.head == 3 && Owner(Fork, ForkBodies, 3, 7) == Some(1)
  {
    hide IsLookup, IsCanonical, NoneRepeats, Dropped, IsAncestor, IsBranch, Foreign, Up, Owner;
    ForkIs();
    bc := new BlockChain;
    bc.headers, bc.bodies, bc.lookup, bc.head := Fork, ForkBodies, map[7 := 2], 2;
    bc.canon := map[0 := 0, 1 := 1, 2 := 2];
    var r := bc.Reorg(2, 3);
    assert IsAncestor(bc.headers, 1, 2) && IsAncestor(bc.headers, 1, 3);
    ForkHead(r);
  }

  lemma ForkIs()
    ensures Numbered(Fork) && IsLookup(Fork, ForkBodies, map[7 := 2], 2) && Owner(Fork, ForkBodies, 3, 7) == Some(1)
    ensures IsAncestor(Fork, 1, 2) && IsAncestor(Fork, 1, 3)
    ensures Dropped(Fork, ForkBodies, 2, 3, 7)
  {
    ForkOwners();
    ForkUp();
    hide Up, Owner;
    assert Up(Fork, 2, 1) == Some(1) && Up(Fork, 3, 1) == Some(1) && Up(Fork, 2, 0) == Some(2);
    forall k: nat | Up(Fork, 3, k).Some? && 7 in TxsIn(ForkBodies, Up(Fork, 3, k).value)
      ensures IsAncestor(Fork, Up(Fork, 3, k).value, 2)
    {
      assert Up(Fork, 2, k) == Up(Fork, 3, k);
    }
  }

  lemma ForkOwners()
    ensures Numbered(Fork) && Owner(Fork, ForkBodies, 3, 7) == Some(1)
    ensures forall tx :: Owner(Fork, ForkBodies, 2, tx) == if tx == 7 then Some(2) else None
  {
    forall tx ensures Owner(Fork, ForkBodies, 2, tx) == if tx == 7 then Some(2) else None {
      assert Owner(Fork, ForkBodies, 0, tx) == None;
      assert Owner(Fork, ForkBodies, 1, tx) == if tx == 7 then Some(1) else None;
    }
    assert Owner(Fork, ForkBodies, 1, 7) == Some(1);
  }

  lemma ForkUp()
    ensures forall k: nat :: Up(Fork, 2, k) ==
              if k == 0 then Some(2) else if k == 1 then Some(1) else if k == 2 then Some(0) else None
    ensures forall k: nat :: Up(Fork, 3, k) ==
              if k == 0 then Some(3) else if k == 1 then Some(1) else if k == 2 then Some(0) else None
  {
    forall k: nat
      ensures Up(Fork, 1, k) == if k == 0 then Some(1) else if k == 1 then Some(0) else None
    {
      if k > 0 {
        assert Up(Fork, 1, k) == Up(Fork, 0, k - 1);
      }
    }
    forall k: nat | k > 0 ensures Up(Fork, 2, k) == Up(Fork, 1, k - 1) && Up(Fork, 3, k) == Up(Fork, 1, k - 1) {
    }
  }

  lemma ForkHead(r: Split)
    requires r.Split? && IsBranch(Fork, 3, r.newChain) && Up(Fork, 3, |r.newChain|) == Some(r.common)
    requires Up(Fork, 2, |r.oldChain|) == Some(r.common)
    ensures r.newChain != []
  {
    ForkUp();
  }
}
