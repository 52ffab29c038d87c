/** The tree of stored headers that the canonical number index of core/headerchain.go and
    core/blockchain.go describes. Hashes are injective identifiers. */
module ChainTree {
  import opened TxTypes

  type Hash = nat

  datatype Header = Header(hash: Hash, parent: Hash, number: nat, difficulty: int)

  type Headers = map<Hash, Header>

  /** The parent is looked up under the number below, which nothing at height 0 has. */
  predicate HasParent(hs: Headers, h: Hash)
    requires h in hs
  {
    hs[h].number > 0 && hs[h].parent in hs
  }

  /** Headers are stored under their own hash, one number above their parent if that is stored. */
  ghost predicate Numbered(hs: Headers) {
    forall h :: h in hs ==>
      hs[h].hash == h && (HasParent(hs, h) ==> hs[hs[h].parent].number + 1 == hs[h].number)
  }

  /** The ancestor k steps above h, if every header on the way is stored. */
  ghost function Up(hs: Headers, h: Hash, k: nat): Option<Hash>
    decreases k
  {
    if h !in hs then None
    else if k == 0 then Some(h)
    else if hs[h].number == 0 then None
    else Up(hs, hs[h].parent, k - 1)
  }

  ghost predicate IsAncestor(hs: Headers, a: Hash, h: Hash) {
    exists k: nat :: Up(hs, h, k) == Some(a)
  }

  lemma {:induction false} UpNumber(hs: Headers, h: Hash, k: nat)
    requires Numbered(hs) && Up(hs, h, k).Some?
    ensures var a := Up(hs, h, k).value; a in hs && hs[a].number + k == hs[h].number
    decreases k
  {
    if k > 0 {
      UpNumber(hs, hs[h].parent, k - 1);
    }
  }

  lemma {:induction false} UpUp(hs: Headers, h: Hash, j: nat, k: nat)
    ensures Up(hs, h, j + k) == if Up(hs, h, j).Some? then Up(hs, Up(hs, h, j).value, k) else None
    decreases j
  {
    if h in hs && j > 0 && hs[h].number > 0 {
      UpUp(hs, hs[h].parent, j - 1, k);
    }
  }

  /** A step further up. */
  lemma UpNext(hs: Headers, h: Hash, k: nat)
    ensures Up(hs, h, k).Some? ==>
              var a := Up(hs, h, k).value;
              a in hs && Up(hs, h, k + 1) == if HasParent(hs, a) then Some(hs[a].parent) else None
    ensures Up(hs, h, k).None? ==> Up(hs, h, k + 1).None?
  {
    UpUp(hs, h, k, 1);
    if Up(hs, h, k).Some? {
      UpIn(hs, h, k);
      var a := Up(hs, h, k).value;
      assert hs[a].number > 0 ==> Up(hs, a, 1) == Up(hs, hs[a].parent, 0);
    }
  }

  lemma {:induction false} UpIn(hs: Headers, h: Hash, k: nat)
    requires Up(hs, h, k).Some?
    ensures Up(hs, h, k).value in hs && h in hs
    decreases k
  {
    if k > 0 {
      UpIn(hs, hs[h].parent, k - 1);
    }
  }

  /** Nothing is left beyond a missing ancestor. */
  lemma {:induction false} UpEnds(hs: Headers, h: Hash, j: nat, k: nat)
    requires Up(hs, h, j).None? && j <= k
    ensures Up(hs, h, k).None?
  {
    UpUp(hs, h, j, k - j);
  }

  /** The ancestor of h at height n. */
  ghost function AtHeight(hs: Headers, h: Hash, n: nat): Option<Hash> {
    if h in hs && n <= hs[h].number then Up(hs, h, hs[h].number - n) else None
  }

  /** Adding a header whose hash is new leaves the ancestries of the others alone. */
  lemma {:induction false} UpKept(hs: Headers, x: Header, h: Hash, k: nat)
    requires Up(hs, h, k).Some? && (x.hash in hs ==> hs[x.hash] == x)
    ensures Up(hs[x.hash := x], h, k) == Up(hs, h, k)
    decreases k
  {
    if k > 0 {
      UpKept(hs, x, hs[h].parent, k - 1);
    }
  }

  /** An ancestor's ancestors are one's own. */
  lemma AtHeightVia(hs: Headers, h: Hash, a: Hash, n: nat)
    requires Numbered(hs) && h in hs && a in hs && AtHeight(hs, h, hs[a].number) == Some(a) && n <= hs[a].number
    ensures AtHeight(hs, h, n) == AtHeight(hs, a, n)
  {
    UpUp(hs, h, hs[h].number - hs[a].number, hs[a].number - n);
  }
}
