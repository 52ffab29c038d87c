/** core/evm.go, `GetHashFn`: block hashes by number, remembered along the ancestry of a
    reference header. Numbers are 64-bit words. */
module BlockHashes {
  import opened TxTypes
  import opened ChainTree

  const WORD: nat := 0x1_0000_0000_0000_0000
  const NO_HASH: Hash := 0

  type Chain = (Hash, nat) -> Option<Header>

  /** The chain hands out a header only under its own number, and has none at the highest word. */
  ghost predicate Numbering(chain: Chain) {
    forall h: Hash, n: nat :: chain(h, n).Some? ==> chain(h, n).value.number == n && n < WORD - 1
  }

  function Wrap(x: int): nat {
    x % WORD
  }

  /** The i-th hash on the way up: the reference's parent hash, its parent's parent hash, and so
      on, each looked up afresh. */
  ghost function Link(ref: Header, chain: Chain, i: nat): Option<Hash> {
    if i == 0 then Some(ref.parent)
    else
      match Link(ref, chain, i - 1)
      case None => None
      case Some(h) =>
        match chain(h, Wrap(ref.number - i))
        case None => None
        case Some(x) => Some(x.parent)
  }

  /** Walking up from the reference to the hash at number n. */
  ghost function Walk(ref: Header, chain: Chain, n: nat): Hash {
    match Link(ref, chain, Wrap(ref.number - n - 1))
    case None => NO_HASH
    case Some(h) => h
  }

  class HashFn {
    const ref: Header
    const chain: Chain
    var cache: seq<Hash>

    constructor (ref: Header, chain: Chain)
      requires ref.number < WORD
      ensures this.ref == ref && this.chain == chain && cache == [] && Valid()
    {
      this.ref, this.chain, cache := ref, chain, [];
    }

    ghost predicate Valid()
      reads this
    {
      && ref.number < WORD && |cache| <= ref.number + 1
      && forall i :: 0 <= i < |cache| ==> Link(ref, chain, i) == Some(cache[i])
    }

    /** Any query, in any order, answers as a walk of its own would. */
    method Query(n: nat) returns (r: Hash)
      requires Valid() && Numbering(chain) && n < WORD
      modifies this`cache
      ensures Valid() && r == Walk(ref, chain, n) && old(cache) <= cache
    {
      hide Numbering, Walk, Wrap, Link;
      WalkIs(ref, chain, n);
      LinkStarts(ref, chain);
      if |cache| == 0 {
        cache := [ref.parent];
      }
      var idx := Wrap(ref.number - n - 1);
      if idx < |cache| {
        return cache[idx];
      }
      var last, number := cache[|cache| - 1], Wrap(ref.number - |cache|);
      while true
        invariant Valid() && 0 < |cache| <= idx && old(cache) <= cache
        invariant last == cache[|cache| - 1] && number == Wrap(ref.number - |cache|)
        decreases ref.number + 1 - |cache|
      {
        OneMore(ref, chain, cache, n);
        var header := chain(last, number);
        if header.None? {
          return NO_HASH;
        }
        cache := cache + [header.value.parent];
        last := header.value.parent;
        number := Wrap(header.value.number - 1);
        if n == number {
          return last;
        }
      }
    }

    /** A whole run of queries. */
    method QueryAll(ns: seq<nat>) returns (rs: seq<Hash>)
      requires Valid() && Numbering(chain) && forall i :: 0 <= i < |ns| ==> ns[i] < WORD
      modifies this`cache
      ensures Valid() && |rs| == |ns| && forall i :: 0 <= i < |ns| ==> rs[i] == Walk(ref, chain, ns[i])
    {
      hide Numbering, Walk;
      rs := [];
      for i := 0 to |ns|
        invariant Valid() && |rs| == i && forall j :: 0 <= j < i ==> rs[j] == Walk(ref, chain, ns[j])
      {
        var r := Query(ns[i]);
        rs := rs + [r];
      }
    }
  }

  lemma WalkIs(ref: Header, chain: Chain, n: nat)
    ensures var l := Link(ref, chain, Wrap(ref.number - n - 1));
            Walk(ref, chain, n) == if l.Some? then l.value else NO_HASH
  {
  }

  lemma LinkStarts(ref: Header, chain: Chain)
    ensures Link(ref, chain, 0) == Some(ref.parent)
  {
  }

  /** Beyond a missing header nothing is found. */
  lemma {:induction false} LinkEnds(ref: Header, chain: Chain, i: nat, j: nat)
    requires Link(ref, chain, i).None? && i <= j
    ensures Link(ref, chain, j).None?
    decreases j
  {
    if i < j {
      LinkEnds(ref, chain, i, j - 1);
    }
  }

  /** The next header up extends the cache by the next hash, or ends the walk. */
  lemma OneMore(ref: Header, chain: Chain, cache: seq<Hash>, n: nat)
    requires ref.number < WORD && n < WORD && 0 < |cache| <= ref.number + 1 && Numbering(chain)
    requires Link(ref, chain, |cache| - 1) == Some(cache[|cache| - 1])
    requires |cache| <= Wrap(ref.number - n - 1)
    ensures var x := chain(cache[|cache| - 1], Wrap(ref.number - |cache|));
            && (x.None? ==> Link(ref, chain, Wrap(ref.number - n - 1)).None?)
            && (x.Some? ==>
                  && |cache| <= ref.number && Link(ref, chain, |cache|) == Some(x.value.parent)
                  && Wrap(x.value.number - 1) == Wrap(ref.number - (|cache| + 1))
                  && (n == Wrap(x.value.number - 1) <==> |cache| == Wrap(ref.number - n - 1)))
  {
    var x := chain(cache[|cache| - 1], Wrap(ref.number - |cache|));
    if x.None? {
      LinkEnds(ref, chain, |cache|, Wrap(ref.number - n - 1));
    } else {
      Wrapping(ref.number, |cache|, n);
      hide Wrap;
    }
  }

  lemma Wrapping(m: nat, k: nat, n: nat)
    requires m < WORD && n < WORD && 0 < k <= m + 1
    ensures Wrap(m - k) < WORD - 1 ==>
              k <= m && Wrap(Wrap(m - k) - 1) == Wrap(m - (k + 1)) &&
              (n == Wrap(m - (k + 1)) <==> k == Wrap(m - n - 1))
  {
    if k <= m {
      assert Wrap(m - k) == m - k;
      assert Wrap(m - n - 1) == if n < m then m - n - 1 else WORD + m - n - 1;
      assert Wrap(m - (k + 1)) == if k < m then m - k - 1 else WORD - 1;
    }
  }

  /** Lookup in a store of headers, by hash and number. */
  function InStore(hs: Headers): Chain {
    (h, n) => if h in hs && hs[h].number == n then Some(hs[h]) else None
  }

  lemma {:induction false} LinkIsAncestor(hs: Headers, ref: Header, i: nat)
    requires Numbered(hs) && ref.parent in hs && hs[ref.parent].number + 1 == ref.number < WORD
    requires Up(hs, ref.parent, i).Some?
    ensures Link(ref, InStore(hs), i) == Up(hs, ref.parent, i)
  {
    if i > 0 {
      UpNext(hs, ref.parent, i - 1);
      LinkIsAncestor(hs, ref, i - 1);
      UpNumber(hs, ref.parent, i - 1);
    }
  }

  /** Below the reference's height a query finds the reference's ancestor at that height. */
  lemma WalkFindsAncestor(hs: Headers, ref: Header, n: nat)
    requires Numbered(hs) && ref.parent in hs && hs[ref.parent].number + 1 == ref.number < WORD && n < ref.number
    requires AtHeight(hs, ref.parent, n).Some?
    ensures Walk(ref, InStore(hs), n) == AtHeight(hs, ref.parent, n).value
  {
    assert Wrap(ref.number - n - 1) == ref.number - n - 1;
    LinkIsAncestor(hs, ref, ref.number - n - 1);
  }

  /** At the reference's height and above there is nothing to find, but for the highest word:
      that wraps to the parent hash of the header at height 0, if the walk gets there. */
  lemma WalkAboveIsNothing(ref: Header, chain: Chain, n: nat)
    requires Numbering(chain) && ref.number <= n < WORD
    ensures n < WORD - 1 ==> Walk(ref, chain, n) == NO_HASH
    ensures n == WORD - 1 ==>
              Walk(ref, chain, n) ==
              match Link(ref, chain, ref.number) { case None => NO_HASH case Some(h) => h }
  {
    var idx := Wrap(ref.number - n - 1);
    if n < WORD - 1 {
      assert idx == WORD + ref.number - n - 1 >= ref.number + 1;
      assert Wrap(ref.number - (ref.number + 1)) == WORD - 1;
      assert Link(ref, chain, ref.number + 1).None?;
      LinkEnds(ref, chain, ref.number + 1, idx);
    } else {
      assert idx == ref.number;
    }
  }

  /** On a full chain a query for the highest word answers with the genesis' parent hash. */
  lemma HighestWordWraps(hs: Headers, ref: Header)
    requires Numbered(hs) && ref.parent in hs && hs[ref.parent].number + 1 == ref.number < WORD
    requires AtHeight(hs, ref.parent, 0).Some?
    ensures var g := AtHeight(hs, ref.parent, 0).value;
            g in hs && hs[g].number == 0 && Walk(ref, InStore(hs), WORD - 1) == hs[g].parent
  {
    var k := ref.number - 1;
    UpNumber(hs, ref.parent, k);
    LinkIsAncestor(hs, ref, k);
    assert Wrap(ref.number - (WORD - 1) - 1) == ref.number;
    assert Wrap(ref.number - ref.number) == 0;
  }
}
