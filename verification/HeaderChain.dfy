/** core/headerchain.go: header insertion with total difficulties, the canonical number index,
    and rewinding. Headers and difficulties are looked up by hash and number as in the database,
    the caches do not appear; the coin that decides between equal difficulties is a parameter. */
module HeaderChains {
  import opened TxTypes
  import opened ChainTree

  /** Crashed: the walk that rewrites the index came to a header that is not stored. */
  datatype Status = UnknownAncestor | Canonical | Side | Crashed

  datatype Import = Imported | Rejected(index: nat) | Broken(index: nat)

  datatype Op = Insert(chain: seq<Header>, coins: seq<bool>) | Rewind(target: nat)

  /** The genesis is stored, and is the one header at height 0. */
  ghost predicate Grounded(hs: Headers, genesis: Hash) {
    Numbered(hs) && genesis in hs && forall h :: h in hs ==> (hs[h].number == 0 <==> h == genesis)
  }

  /** Total difficulties add up along parents. */
  ghost predicate Summed(hs: Headers, td: map<Hash, int>, h: Hash)
    requires h in hs && td.Keys == hs.Keys
  {
    hs[h].parent in hs && td[h] == td[hs[h].parent] + hs[h].difficulty
  }

  /** Every stored header but the genesis has its parent stored, and total difficulties add up. */
  ghost predicate Rooted(hs: Headers, td: map<Hash, int>, genesis: Hash) {
    && Grounded(hs, genesis) && td.Keys == hs.Keys && td[genesis] == hs[genesis].difficulty
    && forall h :: h in hs && h != genesis ==> Summed(hs, td, h)
  }

  /** Hashes are injective: world gives the header behind each. */
  ghost predicate Named(world: Hash -> Header, hs: Headers) {
    forall h :: h in hs ==> hs[h] == world(h)
  }

  /** hs and td are what is left of all headers ever stored and their difficulties. */
  ghost predicate Remains(seen: Headers, seenTd: map<Hash, int>, hs: Headers, td: map<Hash, int>, genesis: Hash) {
    && genesis in hs && td.Keys == hs.Keys && hs.Keys <= seen.Keys && seen.Keys == seenTd.Keys
    && forall h :: h in hs ==> hs[h] == seen[h] && td[h] == seenTd[h]
  }

  /** The index is defined exactly up to h's height and holds h's ancestors. */
  ghost predicate IsIndex(hs: Headers, canon: map<nat, Hash>, h: Hash) {
    && h in hs
    && (forall n: nat :: n in canon <==> n <= hs[h].number)
    && (forall n :: n in canon ==> AtHeight(hs, h, n) == Some(canon[n]))
  }

  /** No stored header is heavier than h. */
  ghost predicate IsHeaviest(td: map<Hash, int>, h: Hash) {
    h in td && forall x :: x in td ==> td[x] <= td[h]
  }

  /** The parent's difficulty is found under the parent's hash and the number below. */
  predicate Known(hs: Headers, x: Header) {
    x.parent in hs && hs[x.parent].number + 1 == x.number
  }

  predicate Wins(td: map<Hash, int>, head: Hash, x: Header, coin: bool)
    requires x.parent in td && head in td
  {
    var t := td[x.parent] + x.difficulty;
    t > td[head] || (t == td[head] && coin)
  }

  /** Whether all ancestors of h are stored, down to height 0. */
  ghost predicate Complete(hs: Headers, h: Hash) {
    AtHeight(hs, h, 0).Some?
  }

  /** What is left of the index of `was` below and at height `top`. */
  ghost predicate IsCut(hs: Headers, canon: map<nat, Hash>, was: Hash, top: nat) {
    && was in hs
    && (forall n: nat :: n in canon <==> n <= hs[was].number && n <= top)
    && (forall n :: n in canon ==> AtHeight(hs, was, n) == Some(canon[n]))
  }

  /** The index of h, possibly with further entries up to `top`. */
  ghost predicate IndexUpTo(hs: Headers, canon: map<nat, Hash>, h: Hash, top: nat) {
    && h in hs
    && (forall n :: n in canon ==> n <= top)
    && (forall n :: 0 <= n <= hs[h].number ==> n in canon && AtHeight(hs, h, n) == Some(canon[n]))
  }

  /** h is what the ancestry of `from` names at this height. Above it the index already follows
      `from`, from there down it still follows `was`. */
  ghost predicate Rerouted(hs: Headers, canon: map<nat, Hash>, was: Hash, from: Hash, h: Hash, number: nat, top: nat) {
    && was in hs && from in hs && number <= hs[from].number < top
    && AtHeight(hs, from, number) == (if h in hs then Some(h) else None)
    && (forall n :: n in canon ==> n <= top)
    && (forall n :: number < n <= hs[from].number ==> n in canon && AtHeight(hs, from, n) == Some(canon[n]))
    && (forall n :: 0 <= n <= number ==>
          (n in canon <==> n <= hs[was].number) && (n in canon ==> AtHeight(hs, was, n) == Some(canon[n])))
  }

  /** Each header names the one before as its parent, one number below. */
  ghost predicate Linked(chain: seq<Header>) {
    forall i :: 0 < i < |chain| ==> chain[i].number == chain[i - 1].number + 1 && chain[i].parent == chain[i - 1].hash
  }

  ghost predicate Genuine(world: Hash -> Header, chain: seq<Header>) {
    forall i :: 0 <= i < |chain| ==> chain[i] == world(chain[i].hash)
  }

  ghost predicate Sound(world: Hash -> Header, op: Op) {
    op.Insert? ==> |op.chain| > 0 && |op.coins| == |op.chain| && Genuine(world, op.chain)
  }

  /** These headers were added, and nothing else changed. */
  ghost predicate Stored(hs0: Headers, hs: Headers, chain: seq<Header>) {
    && (forall h :: h in hs0 ==> h in hs && hs[h] == hs0[h])
    && (forall i :: 0 <= i < |chain| ==> chain[i].hash in hs && hs[chain[i].hash] == chain[i])
    && (forall h :: h in hs && h !in hs0 ==> hs[h].hash == h && hs[h] in chain)
  }

  function Lower(m: nat, n: nat): nat {
    if m < n then m else n
  }

  /** The canonical hashes above a height. */
  ghost function Above(canon: map<nat, Hash>, n: nat): set<Hash> {
    set m | m in canon && m > n :: canon[m]
  }

  /** Rewinding has come down to `cur`: the canonical headers above it are gone. */
  ghost predicate Rewound(hs0: Headers, td0: map<Hash, int>, canon0: map<nat, Hash>, head0: Hash, hs: Headers,
                          td: map<Hash, int>, cur: Hash, target: nat)
  {
    && cur in hs0 && hs0[cur].number in canon0 && canon0[hs0[cur].number] == cur
    && (head0 in hs0 && (hs0[cur].number >= target || cur == head0))
    && hs == hs0 - Above(canon0, hs0[cur].number) && td == td0 - Above(canon0, hs0[cur].number)
  }

  class HeaderChain {
    const genesis: Hash
    var headers: Headers
    var td: map<Hash, int>
    var canon: map<nat, Hash>
    var head: Hash

    /** The header behind each hash. */
    ghost const world: Hash -> Header

    /** Every header ever stored and its total difficulty; rewinding takes nothing away here. */
    ghost var seen: Headers
    ghost var seenTd: map<Hash, int>

    /** Holds through every run of insertions and rewinds. */
    ghost predicate Valid()
      reads this
    {
      && Rooted(seen, seenTd, genesis) && Named(world, seen) && Remains(seen, seenTd, headers, td, genesis)
      && IsIndex(headers, canon, head)
    }

    /** No header has lost its parent to a rewind. */
    ghost predicate Intact()
      reads this
    {
      Rooted(headers, td, genesis)
    }

    constructor (g: Header, ghost world: Hash -> Header)
      requires g.number == 0 && g == world(g.hash)
      ensures Valid() && Intact() && IsHeaviest(td, head) && genesis == g.hash && this.world == world
      ensures headers == map[g.hash := g] && td == map[g.hash := g.difficulty] && head == g.hash
    {
      genesis, headers, td := g.hash, map[g.hash := g], map[g.hash := g.difficulty];
      canon, head := map[0 := g.hash], g.hash;
      this.world, seen, seenTd := world, map[g.hash := g], map[g.hash := g.difficulty];
    }

    /** Take the canonical entries above a height out of the index. */
    method DropAbove(number: nat)
      requires forall m, n :: m in canon && 0 <= n <= m ==> n in canon
      modifies this`canon
      ensures forall n :: n in canon <==> n in old(canon) && n <= number
      ensures forall n :: n in canon ==> canon[n] == old(canon)[n]
    {
      var i := number + 1;
      while i in canon
        invariant number < i
        invariant forall n :: n in canon <==> n in old(canon) && !(number < n < i)
        invariant forall n :: n in canon ==> canon[n] == old(canon)[n]
        decreases canon.Keys
      {
        canon := canon - {i};
        i := i + 1;
      }
    }

    /** Overwrite the index along the ancestry of `from` down to the first entry that already
        fits. `was` is the head whose index, cut at `top`, is in place. The walk runs out of
        headers exactly if an ancestor is missing. */
    method Overwrite(from: Hash, ghost was: Hash, ghost top: nat) returns (ok: bool)
      requires Grounded(headers, genesis) && from in headers && headers[from].number < top
      requires IsCut(headers, canon, was, top)
      modifies this`canon
      ensures ok <==> Complete(headers, from)
      ensures ok ==> IndexUpTo(headers, canon, from, top)
    {
      hide Grounded, Rerouted, IsCut, AtHeight, IndexUpTo, Complete;
      var h, number: nat := from, headers[from].number;
      RerouteStart(headers, canon, was, from, top);
      while !(number in canon && canon[number] == h)
        invariant Rerouted(headers, canon, was, from, h, number, top)
        decreases number
      {
        ghost var before := canon;
        canon := canon[number := h];
        if h !in headers {
          RerouteFails(headers, before, was, from, h, number, top);
          return false;
        }
        RerouteStep(headers, genesis, before, was, from, h, number, top);
        h, number := headers[h].parent, headers[h].number - 1;
      }
      RerouteEnd(headers, genesis, canon, was, from, h, number, top);
      return true;
    }

    /** Store a header whose parent is known, and make it the head if it is heavier. The head's
        ancestry stays the index; that fails, in a crash, exactly if the new head's own is not
        stored down to the genesis. */
    method WriteHeader(x: Header, coin: bool) returns (status: Status)
      requires Valid() && x == world(x.hash)
      modifies this`headers, this`td, this`canon, this`head, this`seen, this`seenTd
      ensures status != Crashed ==> Valid()
      ensures status == UnknownAncestor <==> !Known(old(headers), x)
      ensures status == UnknownAncestor ==> unchanged(this)
      ensures status != UnknownAncestor ==>
                && headers == old(headers)[x.hash := x] && seen == old(seen)[x.hash := x]
                && x.parent in old(td) && td == old(td)[x.hash := old(td)[x.parent] + x.difficulty]
      ensures Known(old(headers), x) ==>
                && (status == Side <==> !Wins(old(td), old(head), x, coin))
                && (status == Crashed <==> Wins(old(td), old(head), x, coin) && !Complete(old(headers), x.parent))
      ensures status == Canonical ==> head == x.hash
      ensures status == Side ==> head == old(head) && canon == old(canon)
      ensures head in td && old(head) in old(td) && old(td)[old(head)] <= td[head]
      ensures status != Crashed && old(IsHeaviest(td, head)) ==> IsHeaviest(td, head)
      ensures old(Intact()) ==> status != Crashed && Intact()
    {
      hide Rooted, Named, Remains, IsIndex, IsHeaviest, IsCut, Complete, Grounded;
      HeadFacts(seen, seenTd, headers, td, genesis, canon, head);
      if !Known(headers, x) {
        return UnknownAncestor;
      }
      var externTd := x.difficulty + td[x.parent];
      ghost var hs := headers;
      StoreFacts(world, seen, seenTd, headers, td, genesis, canon, head, x, externTd);
      seen, seenTd := seen[x.hash := x], seenTd[x.hash := externTd];
      var localTd := td[head];
      td := td[x.hash := externTd];
      headers := headers[x.hash := x];
      if externTd > localTd || (externTd == localTd && coin) {
        IndexDown(headers, canon, head);
        DropAbove(x.number);
        CutAt(headers, old(canon), canon, head, x.number);
        var ok := Overwrite(x.parent, head, x.number);
        if !ok {
          return Crashed;
        }
        IndexExtended(headers, genesis, canon, x);
        canon := canon[x.number := x.hash];
        head := x.hash;
      } else {
        return Side;
      }
      return Canonical;
    }

    /** Insert headers one after the other, skipping the stored ones, up to the first that lacks
        its parent. In a linked run only the first can. */
    method InsertHeaderChain(chain: seq<Header>, coins: seq<bool>) returns (out: Import)
      requires Valid() && |chain| > 0 && |coins| == |chain| && Genuine(world, chain)
      modifies this`headers, this`td, this`canon, this`head, this`seen, this`seenTd
      ensures !out.Broken? ==> Valid()
      ensures !out.Imported? ==> out.index < |chain|
      ensures out.Imported? ==> Stored(old(headers), headers, chain)
      ensures out.Broken? ==> Stored(old(headers), headers, chain[..out.index + 1])
      ensures out.Rejected? ==>
                && Stored(old(headers), headers, chain[..out.index])
                && chain[out.index].hash !in headers && !Known(headers, chain[out.index])
      ensures Linked(chain) ==>
                && (out.Rejected? <==> chain[0].hash !in old(headers) && !Known(old(headers), chain[0]))
                && (out.Rejected? ==> headers == old(headers) && head == old(head))
      ensures head in td && old(head) in old(td) && old(td)[old(head)] <= td[head]
      ensures !out.Broken? && old(IsHeaviest(td, head)) ==> IsHeaviest(td, head)
      ensures old(Intact()) ==> !out.Broken? && Intact()
    {
      hide Rooted, Named, Remains, IsIndex, IsHeaviest, Complete, Grounded, Linked;
      HeadFacts(seen, seenTd, headers, td, genesis, canon, head);
      for i := 0 to |chain|
        invariant Valid() && Stored(old(headers), headers, chain[..i])
        invariant head in td && old(td)[old(head)] <= td[head]
        invariant old(IsHeaviest(td, head)) ==> IsHeaviest(td, head)
        invariant old(Intact()) ==> Intact()
        invariant i > 0 ==> chain[0].hash in old(headers) || Known(old(headers), chain[0])
        invariant i == 0 ==> headers == old(headers) && head == old(head)
      {
        hide Stored;
        StoredNext(world, seen, seenTd, old(headers), headers, td, genesis, chain, i);
        if chain[i].hash in headers {
          continue;
        }
        if Linked(chain) && i > 0 {
          LinkedKnown(old(headers), headers, chain, i);
        }
        var status := WriteHeader(chain[i], coins[i]);
        if status == UnknownAncestor {
          return Rejected(i);
        }
        if status == Crashed {
          return Broken(i);
        }
      }
      assert chain[..|chain|] == chain;
      return Imported;
    }

    /** Rewind to a height: the head's ancestors above it go, and so do their index entries. */
    method SetHead(target: nat)
      requires Valid()
      modifies this`headers, this`td, this`canon, this`head
      ensures Valid()
      ensures canon == map n | n in old(canon) && n <= target :: old(canon)[n]
      ensures var n := Lower(target, old(headers)[old(head)].number);
              n in old(canon) && head == old(canon)[n]
      ensures headers == old(headers) - Above(old(canon), target) && td == old(td) - Above(old(canon), target)
    {
      hide Rooted, Named, Remains, IsIndex, Rewound, Above, Numbered;
      HeadFacts(seen, seenTd, headers, td, genesis, canon, head);
      StillNumbered(seen, seenTd, headers, td, genesis);
      var height := headers[head].number;
      var cur := head;
      RewindStart(headers, td, canon, head, target);
      while headers[cur].number > target
        invariant cur in headers && cur in old(headers) && headers[cur] == old(headers)[cur]
        invariant Rewound(old(headers), old(td), old(canon), old(head), headers, td, cur, target)
        decreases headers[cur].number
        modifies this`headers, this`td
      {
        RewindStep(old(headers), old(td), old(canon), old(head), headers, td, cur, target);
        var parent := headers[cur].parent;
        headers := headers - {cur};
        td := td - {cur};
        cur := parent;
      }
      var i := height;
      while i > target
        invariant forall n :: n in canon <==> n in old(canon) && !(i < n <= height && target < n)
        invariant forall n :: n in canon ==> canon[n] == old(canon)[n]
        decreases i
        modifies this`canon
      {
        canon := canon - {i};
        i := i - 1;
      }
      head := cur;
      RewindEnd(old(headers), old(td), old(canon), old(head), headers, td, canon, cur, target);
      RewindRemains(seen, seenTd, old(headers), old(td), genesis, old(canon), old(head), target);
    }

    ghost function Now(): Moment
      reads this
    {
      Moment(headers, td, canon, head)
    }

    /** One operation of a run. */
    method Take(op: Op) returns (alive: bool)
      requires Valid() && Sound(world, op)
      modifies this`headers, this`td, this`canon, this`head, this`seen, this`seenTd
      ensures alive ==> Valid() && Follows(op, old(Now()), Now())
      ensures old(Intact()) && op.Insert? ==>
                alive && Intact() && (old(IsHeaviest(td, head)) ==> IsHeaviest(td, head))
    {
      hide Rooted, Named, Remains, IsIndex, IsHeaviest, Linked, Stored, Complete, Grounded, Above;
      match op
      case Insert(chain, coins) =>
        var out := InsertHeaderChain(chain, coins);
        assert chain[..|chain|] == chain;
        return !out.Broken?;
      case Rewind(target) =>
        HeadFacts(seen, seenTd, headers, td, genesis, canon, head);
        SetHead(target);
        return true;
    }

    /** Any run of insertions and rewinds keeps the index the head's ancestry unless it crashes,
        and without rewinds it never does: the head is then always a heaviest header. */
    method Run(ops: seq<Op>) returns (alive: bool, ghost trace: seq<Moment>)
      requires Valid() && forall i :: 0 <= i < |ops| ==> Sound(world, ops[i])
      modifies this`headers, this`td, this`canon, this`head, this`seen, this`seenTd
      ensures alive ==> Valid()
      ensures old(Intact()) && (forall i :: 0 <= i < |ops| ==> ops[i].Insert?) ==>
                alive && Intact() && (old(IsHeaviest(td, head)) ==> IsHeaviest(td, head))
      ensures 0 < |trace| <= |ops| + 1 && trace[0] == old(Now())
      ensures forall i :: 0 <= i < |trace| - 1 ==> Follows(ops[i], trace[i], trace[i + 1])
      ensures if alive then |trace| == |ops| + 1 && trace[|ops|] == Now() else |trace| <= |ops|
    {
      hide Valid, Intact, IsHeaviest, Follows;
      ghost var inserts := forall i :: 0 <= i < |ops| ==> ops[i].Insert?;
      trace := [Now()];
      for k := 0 to |ops|
        invariant Valid() && |trace| == k + 1 && trace[0] == old(Now()) && trace[k] == Now()
        invariant forall i :: 0 <= i < k ==> Follows(ops[i], trace[i], trace[i + 1])
        invariant old(Intact()) && inserts ==> Intact() && (old(IsHeaviest(td, head)) ==> IsHeaviest(td, head))
      {
        assert Sound(world, ops[k]);
        alive := Take(ops[k]);
        if !alive {
          return;
        }
        trace := trace + [Now()];
      }
      alive := true;
    }
  }

  /** The chain at one time. */
  datatype Moment = Moment(headers: Headers, td: map<Hash, int>, canon: map<nat, Hash>, head: Hash)

  /** What an operation that does not crash does: headers are stored up to the first that lacks its
      parent, and the head gets no lighter; or everything canonical above a height goes. */
  ghost predicate Follows(op: Op, m: Moment, m': Moment) {
    match op
    case Insert(chain, _) =>
      && m.head in m.td && m'.head in m'.td && m.td[m.head] <= m'.td[m'.head]
      && exists n :: 0 <= n <= |chain| && Stored(m.headers, m'.headers, chain[..n]) &&
           (n < |chain| ==> chain[n].hash !in m'.headers && !Known(m'.headers, chain[n]))
    case Rewind(target) =>
      && m.head in m.headers
      && m'.canon == (map n | n in m.canon && n <= target :: m.canon[n])
      && (var n := Lower(target, m.headers[m.head].number); n in m.canon && m'.head == m.canon[n])
      && m'.headers == m.headers - Above(m.canon, target) && m'.td == m.td - Above(m.canon, target)
  }

  lemma RerouteStart(hs: Headers, canon: map<nat, Hash>, was: Hash, from: Hash, top: nat)
    requires IsCut(hs, canon, was, top) && from in hs && hs[from].number < top
    ensures Rerouted(hs, canon, was, from, from, hs[from].number, top)
  {
  }

  /** Everybody's ancestry ends in the genesis. */
  lemma {:induction false} RootIsGenesis(hs: Headers, td: map<Hash, int>, genesis: Hash, h: Hash)
    requires Rooted(hs, td, genesis) && h in hs
    ensures AtHeight(hs, h, 0) == Some(genesis)
    decreases hs[h].number
  {
    if h != genesis {
      assert Summed(hs, td, h);
      RootIsGenesis(hs, td, genesis, hs[h].parent);
    }
  }

  /** One step further up the ancestry of `from`. */
  lemma StepUp(hs: Headers, from: Hash, h: Hash, number: nat)
    requires h in hs && number > 0 && AtHeight(hs, from, number) == Some(h) && hs[h].number > 0
    ensures var p := hs[h].parent;
            AtHeight(hs, from, number - 1) == if p in hs then Some(p) else None
  {
    UpNext(hs, from, hs[from].number - number);
  }

  /** While the entry does not fit and the header is there, the walk has not reached the genesis. */
  lemma NotYetGenesis(hs: Headers, genesis: Hash, canon: map<nat, Hash>, was: Hash, from: Hash, h: Hash, number: nat,
                      top: nat)
    requires Grounded(hs, genesis) && Rerouted(hs, canon, was, from, h, number, top) && h in hs
    requires !(number in canon && canon[number] == h)
    ensures number > 0 && hs[h].number == number
  {
    AtHeightIsThere(hs, from, number);
    if number == 0 {
      assert 0 in canon && AtHeight(hs, was, 0) == Some(canon[0]);
      AtHeightIsThere(hs, was, 0);
    }
  }

  lemma RerouteStep(hs: Headers, genesis: Hash, canon: map<nat, Hash>, was: Hash, from: Hash, h: Hash, number: nat,
                    top: nat)
    requires Grounded(hs, genesis) && Rerouted(hs, canon, was, from, h, number, top) && h in hs
    requires !(number in canon && canon[number] == h)
    ensures number > 0 && hs[h].number == number
    ensures Rerouted(hs, canon[number := h], was, from, hs[h].parent, number - 1, top)
  {
    NotYetGenesis(hs, genesis, canon, was, from, h, number, top);
    StepUp(hs, from, h, number);
    hide AtHeight, Grounded;
  }

  /** At a missing header the walk fails, and no ancestry gets past it. */
  lemma RerouteFails(hs: Headers, canon: map<nat, Hash>, was: Hash, from: Hash, h: Hash, number: nat, top: nat)
    requires Rerouted(hs, canon, was, from, h, number, top) && h !in hs
    ensures !Complete(hs, from)
  {
    UpEnds(hs, from, hs[from].number - number, hs[from].number);
  }

  lemma RerouteEnd(hs: Headers, genesis: Hash, canon: map<nat, Hash>, was: Hash, from: Hash, h: Hash, number: nat,
                   top: nat)
    requires Grounded(hs, genesis) && Rerouted(hs, canon, was, from, h, number, top)
    requires number in canon && canon[number] == h
    ensures IndexUpTo(hs, canon, from, top) && Complete(hs, from)
  {
    AtHeightIsThere(hs, was, number);
    forall n | 0 <= n <= number ensures AtHeight(hs, from, n) == AtHeight(hs, was, n) {
      AtHeightVia(hs, from, h, n);
      AtHeightVia(hs, was, h, n);
    }
    hide AtHeight, Grounded;
  }

  lemma HeadFacts(seen: Headers, seenTd: map<Hash, int>, hs: Headers, td: map<Hash, int>, genesis: Hash,
                  canon: map<nat, Hash>, head: Hash)
    requires Remains(seen, seenTd, hs, td, genesis) && IsIndex(hs, canon, head)
    ensures head in hs && td.Keys == hs.Keys
  {
  }

  lemma StillNumbered(seen: Headers, seenTd: map<Hash, int>, hs: Headers, td: map<Hash, int>, genesis: Hash)
    requires Rooted(seen, seenTd, genesis) && Remains(seen, seenTd, hs, td, genesis)
    ensures Grounded(hs, genesis) && Numbered(hs)
  {
    forall h | h in hs ensures hs[h].hash == h && (HasParent(hs, h) ==> hs[hs[h].parent].number + 1 == hs[h].number) {
      assert HasParent(hs, h) ==> HasParent(seen, h);
    }
  }

  /** Storing a header with its total difficulty. */
  lemma StoreFacts(world: Hash -> Header, seen: Headers, seenTd: map<Hash, int>, hs: Headers, td: map<Hash, int>,
                   genesis: Hash, canon: map<nat, Hash>, head: Hash, x: Header, t: int)
    requires Rooted(seen, seenTd, genesis) && Named(world, seen) && Remains(seen, seenTd, hs, td, genesis)
    requires IsIndex(hs, canon, head) && x == world(x.hash)
    requires Known(hs, x) && x.parent in td && head in td && t == x.difficulty + td[x.parent]
    ensures var hs', td', seen', seenTd' := hs[x.hash := x], td[x.hash := t], seen[x.hash := x], seenTd[x.hash := t];
            && Rooted(seen', seenTd', genesis) && Named(world, seen') && Remains(seen', seenTd', hs', td', genesis)
            && IsIndex(hs', canon, head) && Grounded(hs', genesis) && Known(hs', x) && td'[head] == td[head]
            && (Complete(hs', x.parent) <==> Complete(hs, x.parent))
            && (Rooted(hs, td, genesis) ==> Rooted(hs', td', genesis) && Complete(hs, x.parent))
            && (IsHeaviest(td, head) && t <= td[head] ==> IsHeaviest(td', head))
            && (IsHeaviest(td, head) && t >= td[head] ==> IsHeaviest(td', x.hash))
  {
    hide Rooted, IsIndex, IsHeaviest, Complete, Grounded, Named;
    StoreSame(world, seen, seenTd, hs, td, genesis, x, t);
    StoredRooted(seen, seenTd, genesis, x, t);
    StoredNamed(world, seen, x);
    StoredRemains(seen, seenTd, hs, td, genesis, x, t);
    IndexKept(hs, canon, head, x);
    StillNumbered(seen[x.hash := x], seenTd[x.hash := t], hs[x.hash := x], td[x.hash := t], genesis);
    CompleteKept(hs, x, genesis);
    HeaviestKept(td, head, x.hash, t);
    if Rooted(hs, td, genesis) {
      StoredRooted(hs, td, genesis, x, t);
      RootedComplete(hs, td, genesis, x.parent);
    }
  }

  /** A header stored before is stored again with the same difficulty. */
  lemma StoreSame(world: Hash -> Header, seen: Headers, seenTd: map<Hash, int>, hs: Headers, td: map<Hash, int>,
                  genesis: Hash, x: Header, t: int)
    requires Rooted(seen, seenTd, genesis) && Named(world, seen) && Remains(seen, seenTd, hs, td, genesis)
    requires x == world(x.hash) && Known(hs, x) && t == x.difficulty + td[x.parent]
    ensures Known(seen, x) && t == x.difficulty + seenTd[x.parent]
    ensures x.hash in seen ==> seen[x.hash] == x && seenTd[x.hash] == t
    ensures x.hash in hs ==> hs[x.hash] == x && td[x.hash] == t
  {
    if x.hash in seen {
      assert x.hash != genesis;
      assert Summed(seen, seenTd, x.hash);
    }
  }

  lemma StoredRooted(hs: Headers, td: map<Hash, int>, genesis: Hash, x: Header, t: int)
    requires Rooted(hs, td, genesis) && Known(hs, x) && t == x.difficulty + td[x.parent]
    requires x.hash in hs ==> hs[x.hash] == x && td[x.hash] == t
    ensures Rooted(hs[x.hash := x], td[x.hash := t], genesis)
  {
  }

  lemma StoredNamed(world: Hash -> Header, seen: Headers, x: Header)
    requires Named(world, seen) && x == world(x.hash)
    ensures Named(world, seen[x.hash := x])
  {
  }

  lemma StoredRemains(seen: Headers, seenTd: map<Hash, int>, hs: Headers, td: map<Hash, int>, genesis: Hash, x: Header,
                      t: int)
    requires Remains(seen, seenTd, hs, td, genesis)
    ensures Remains(seen[x.hash := x], seenTd[x.hash := t], hs[x.hash := x], td[x.hash := t], genesis)
  {
  }

  lemma HeaviestKept(td: map<Hash, int>, head: Hash, h: Hash, t: int)
    requires head in td && (h in td ==> td[h] == t)
    ensures IsHeaviest(td, head) && t <= td[head] ==> IsHeaviest(td[h := t], head)
    ensures IsHeaviest(td, head) && t >= td[head] ==> IsHeaviest(td[h := t], h)
    ensures td[h := t][head] == td[head]
  {
  }

  lemma RootedComplete(hs: Headers, td: map<Hash, int>, genesis: Hash, h: Hash)
    requires Rooted(hs, td, genesis) && h in hs
    ensures Complete(hs, h)
  {
    RootIsGenesis(hs, td, genesis, h);
  }

  /** A header is no ancestor of its parent, so storing it does not complete the parent's ancestry. */
  lemma CompleteKept(hs: Headers, x: Header, genesis: Hash)
    requires Known(hs, x) && Grounded(hs[x.hash := x], genesis) && (x.hash in hs ==> hs[x.hash] == x)
    ensures Complete(hs[x.hash := x], x.parent) <==> Complete(hs, x.parent)
  {
    UpSame(hs, x, x.parent, hs[x.parent].number);
    hide Up;
  }

  lemma {:induction false} UpSame(hs: Headers, x: Header, h: Hash, k: nat)
    requires Numbered(hs[x.hash := x]) && h in hs && hs[h].number < x.number && (x.hash in hs ==> hs[x.hash] == x)
    ensures Up(hs[x.hash := x], h, k) == Up(hs, h, k)
    decreases k
  {
    var hs' := hs[x.hash := x];
    if k > 0 && hs[h].number > 0 {
      var p := hs[h].parent;
      if p in hs' {
        assert HasParent(hs', h);
        UpSame(hs, x, p, k - 1);
      }
    }
  }

  lemma IndexKept(hs: Headers, canon: map<nat, Hash>, head: Hash, x: Header)
    requires IsIndex(hs, canon, head) && (x.hash in hs ==> hs[x.hash] == x)
    ensures IsIndex(hs[x.hash := x], canon, head)
  {
    forall n | n in canon ensures AtHeight(hs[x.hash := x], head, n) == AtHeight(hs, head, n) {
      UpKept(hs, x, head, hs[head].number - n);
    }
  }

  lemma IndexDown(hs: Headers, canon: map<nat, Hash>, head: Hash)
    requires IsIndex(hs, canon, head)
    ensures forall m, n :: m in canon && 0 <= n <= m ==> n in canon
  {
  }

  lemma CutAt(hs: Headers, canon0: map<nat, Hash>, canon: map<nat, Hash>, head: Hash, top: nat)
    requires IsIndex(hs, canon0, head)
    requires forall n :: n in canon <==> n in canon0 && n <= top
    requires forall n :: n in canon ==> canon[n] == canon0[n]
    ensures IsCut(hs, canon, head, top)
  {
  }

  lemma IndexExtended(hs: Headers, genesis: Hash, canon: map<nat, Hash>, x: Header)
    requires Grounded(hs, genesis) && x.hash in hs && hs[x.hash] == x && Known(hs, x)
    requires IndexUpTo(hs, canon, x.parent, x.number)
    ensures IsIndex(hs, canon[x.number := x.hash], x.hash)
  {
    SelfAtHeight(hs, x.hash);
    StepUp(hs, x.hash, x.hash, x.number);
    hide Up, AtHeight;
    forall n | 0 <= n < x.number ensures AtHeight(hs, x.hash, n) == AtHeight(hs, x.parent, n) {
      AtHeightVia(hs, x.hash, x.parent, n);
    }
  }

  lemma SelfAtHeight(hs: Headers, h: Hash)
    requires h in hs
    ensures AtHeight(hs, h, hs[h].number) == Some(h)
  {
  }

  lemma RewindStart(hs: Headers, td: map<Hash, int>, canon: map<nat, Hash>, head: Hash, target: nat)
    requires IsIndex(hs, canon, head)
    ensures Rewound(hs, td, canon, head, hs, td, head, target)
  {
    assert Above(canon, hs[head].number) == {};
    assert AtHeight(hs, head, hs[head].number) == Some(head);
  }

  /** The index names a different header at every height. */
  lemma IndexAt(hs: Headers, canon: map<nat, Hash>, head: Hash, n: nat)
    requires Numbered(hs) && IsIndex(hs, canon, head) && n in canon
    ensures canon[n] in hs && hs[canon[n]].number == n
    ensures n > 0 ==> HasParent(hs, canon[n]) && n - 1 in canon && hs[canon[n]].parent == canon[n - 1]
  {
    AtHeightIsThere(hs, head, n);
    hide Up, Numbered;
    if n > 0 {
      StepUp(hs, head, canon[n], n);
    }
  }

  lemma AtHeightIsThere(hs: Headers, h: Hash, n: nat)
    requires Numbered(hs) && AtHeight(hs, h, n).Some?
    ensures var a := AtHeight(hs, h, n).value; a in hs && hs[a].number == n
  {
    UpNumber(hs, h, hs[h].number - n);
  }

  lemma RewindStep(hs0: Headers, td0: map<Hash, int>, canon0: map<nat, Hash>, head0: Hash, hs: Headers,
                   td: map<Hash, int>, cur: Hash, target: nat)
    requires Numbered(hs0) && IsIndex(hs0, canon0, head0)
    requires Rewound(hs0, td0, canon0, head0, hs, td, cur, target) && cur in hs && hs[cur].number > target
    ensures var parent := hs[cur].parent;
            && parent in hs0 && parent in hs - {cur} && hs[parent] == hs0[parent] && hs[parent].number < hs[cur].number
            && Rewound(hs0, td0, canon0, head0, hs - {cur}, td - {cur}, parent, target)
  {
    hide Numbered, IsIndex, Above;
    var n := hs0[cur].number;
    IndexAt(hs0, canon0, head0, n);
    IndexAt(hs0, canon0, head0, n - 1);
    forall m | m in canon0 && m > n ensures canon0[m] != canon0[n - 1] {
      IndexAt(hs0, canon0, head0, m);
    }
    AboveNext(canon0, n, hs0, td0);
    NotAbove(canon0, n, canon0[n - 1]);
  }

  lemma NotAbove(canon: map<nat, Hash>, n: nat, h: Hash)
    requires forall m :: m in canon && m > n ==> canon[m] != h
    ensures h !in Above(canon, n)
  {
  }

  lemma AboveNext(canon: map<nat, Hash>, n: nat, hs: Headers, td: map<Hash, int>)
    requires n > 0 && n in canon
    ensures Above(canon, n - 1) == Above(canon, n) + {canon[n]}
    ensures hs - Above(canon, n) - {canon[n]} == hs - Above(canon, n - 1)
    ensures td - Above(canon, n) - {canon[n]} == td - Above(canon, n - 1)
  {
    assert Above(canon, n - 1) == Above(canon, n) + {canon[n]};
    hide Above;
  }

  /** Taking away headers above a height does not touch the ancestries below it. */
  lemma {:induction false} UpBelow(hs: Headers, gone: set<Hash>, h: Hash, k: nat)
    requires Numbered(hs) && h in hs && forall g :: g in gone && g in hs ==> hs[g].number > hs[h].number
    ensures Up(hs - gone, h, k) == Up(hs, h, k)
    decreases k
  {
    if k > 0 && HasParent(hs, h) {
      UpBelow(hs, gone, hs[h].parent, k - 1);
    }
  }

  lemma RewindEnd(hs0: Headers, td0: map<Hash, int>, canon0: map<nat, Hash>, head0: Hash, hs: Headers,
                  td: map<Hash, int>, canon: map<nat, Hash>, cur: Hash, target: nat)
    requires Numbered(hs0) && IsIndex(hs0, canon0, head0)
    requires Rewound(hs0, td0, canon0, head0, hs, td, cur, target) && cur in hs && hs[cur].number <= target
    requires forall n :: n in canon <==> n in canon0 && !(target < n <= hs0[head0].number)
    requires forall n :: n in canon ==> canon[n] == canon0[n]
    ensures canon == map n | n in canon0 && n <= target :: canon0[n]
    ensures IsIndex(hs, canon, cur) && head0 in hs0
    ensures var n := Lower(target, hs0[head0].number);
            n in canon0 && cur == canon0[n]
    ensures hs == hs0 - Above(canon0, target) && td == td0 - Above(canon0, target)
  {
    SelfAtHeight(hs0, head0);
    hide Numbered, AtHeight, Above;
    AboveHead(canon0, hs0[cur].number, target, hs0[head0].number);
    assert canon == map n | n in canon0 && n <= target :: canon0[n];
    IndexCut(hs0, canon0, head0, canon, cur);
  }

  lemma AboveHead(canon: map<nat, Hash>, c: nat, target: nat, height: nat)
    requires c <= target && (c == target || c == height) && forall n :: n in canon ==> n <= height
    ensures Above(canon, target) == Above(canon, c)
  {
  }

  /** What goes is stored, and above the height. */
  lemma AboveIsHigher(hs: Headers, canon: map<nat, Hash>, head: Hash, n: nat)
    requires Numbered(hs) && IsIndex(hs, canon, head)
    ensures forall g :: g in Above(canon, n) ==> g in hs && hs[g].number > n
  {
    forall m | m in canon && m > n ensures canon[m] in hs && hs[canon[m]].number > n {
      IndexAt(hs, canon, head, m);
    }
  }

  /** Below one of its entries the index is that entry's, also once what is above it is gone. */
  lemma IndexCut(hs: Headers, canon: map<nat, Hash>, head: Hash, canon': map<nat, Hash>, cur: Hash)
    requires Numbered(hs) && IsIndex(hs, canon, head)
    requires cur in hs && hs[cur].number in canon && canon[hs[cur].number] == cur
    requires forall n :: n in canon' <==> n in canon && n <= hs[cur].number
    requires forall n :: n in canon' ==> canon'[n] == canon[n]
    ensures IsIndex(hs - Above(canon, hs[cur].number), canon', cur)
  {
    var c := hs[cur].number;
    var gone := Above(canon, c);
    AboveIsHigher(hs, canon, head, c);
    hide Above, Up, Numbered;
    assert AtHeight(hs, head, c) == Some(cur);
    forall n | n in canon' ensures AtHeight(hs - gone, cur, n) == Some(canon'[n]) {
      AtHeightVia(hs, head, cur, n);
      UpBelow(hs, gone, cur, c - n);
    }
  }

  lemma RewindRemains(seen: Headers, seenTd: map<Hash, int>, hs: Headers, td: map<Hash, int>, genesis: Hash,
                      canon: map<nat, Hash>, head: Hash, target: nat)
    requires Rooted(seen, seenTd, genesis) && Remains(seen, seenTd, hs, td, genesis) && Numbered(hs)
    requires IsIndex(hs, canon, head)
    ensures Remains(seen, seenTd, hs - Above(canon, target), td - Above(canon, target), genesis)
  {
    AboveIsHigher(hs, canon, head, target);
    hide Above, IsIndex;
  }

  /** The difficulties of h and its k next ancestors. */
  ghost function SumUp(hs: Headers, h: Hash, k: nat): int
    decreases k
  {
    if h !in hs then 0 else hs[h].difficulty + (if k == 0 then 0 else SumUp(hs, hs[h].parent, k - 1))
  }

  /** The stored total difficulty is the sum along the whole ancestry. */
  lemma {:induction false} TotalDifficulty(hs: Headers, td: map<Hash, int>, genesis: Hash, h: Hash)
    requires Rooted(hs, td, genesis) && h in hs
    ensures td[h] == SumUp(hs, h, hs[h].number)
    decreases hs[h].number
  {
    if h != genesis {
      assert Summed(hs, td, h);
      TotalDifficulty(hs, td, genesis, hs[h].parent);
    }
  }

  /** After a rewind the parents of the remaining headers are all stored exactly when no side
      header hangs off a removed one. */
  lemma RewindRooted(hs: Headers, td: map<Hash, int>, genesis: Hash, canon: map<nat, Hash>, head: Hash, target: nat)
    requires Rooted(hs, td, genesis) && IsIndex(hs, canon, head)
    ensures var gone := Above(canon, target);
            Rooted(hs - gone, td - gone, genesis) <==>
              forall h :: h in hs - gone && h != genesis ==> hs[h].parent !in gone
  {
    var gone := Above(canon, target);
    AboveIsHigher(hs, canon, head, target);
    hide Above, IsIndex;
    var hs', td' := hs - gone, td - gone;
    Remaining(hs, td, genesis, gone);
    forall h | h in hs' && h != genesis ensures Summed(hs', td', h) <==> hs[h].parent !in gone {
      assert Summed(hs, td, h);
    }
  }

  lemma Remaining(hs: Headers, td: map<Hash, int>, genesis: Hash, gone: set<Hash>)
    requires Rooted(hs, td, genesis) && genesis !in gone
    ensures Grounded(hs - gone, genesis) && (td - gone).Keys == (hs - gone).Keys
    ensures (td - gone)[genesis] == (hs - gone)[genesis].difficulty
  {
    var hs' := hs - gone;
    forall h | h in hs' && HasParent(hs', h) ensures hs'[hs'[h].parent].number + 1 == hs'[h].number {
      assert HasParent(hs, h);
    }
  }

  lemma StoredNext(world: Hash -> Header, seen: Headers, seenTd: map<Hash, int>, hs0: Headers, hs: Headers,
                   td: map<Hash, int>, genesis: Hash, chain: seq<Header>, i: nat)
    requires Named(world, seen) && Remains(seen, seenTd, hs, td, genesis)
    requires i < |chain| && Stored(hs0, hs, chain[..i]) && Genuine(world, chain)
    ensures chain[i].hash in hs ==> Stored(hs0, hs, chain[..i + 1])
    ensures chain[i].hash !in hs ==> Stored(hs0, hs[chain[i].hash := chain[i]], chain[..i + 1])
  {
    assert chain[..i + 1] == chain[..i] + [chain[i]];
  }

  lemma LinkedKnown(hs0: Headers, hs: Headers, chain: seq<Header>, i: nat)
    requires Linked(chain) && 0 < i < |chain| && Stored(hs0, hs, chain[..i])
    ensures Known(hs, chain[i])
  {
    assert chain[..i][i - 1] == chain[i - 1];
  }

  /** The header behind each hash of the example: a genesis, two canonical headers, a side header
      next to the second, and its child. */
  const Example: Hash -> Header := (h: Hash) =>
    if h == 1 then Header(1, 0, 1, 10)
    else if h == 2 then Header(2, 1, 2, 10)
    else if h == 3 then Header(3, 1, 2, 9)
    else if h == 4 then Header(4, 3, 3, 5)
    else Header(h, 0, 0, 10)

  const ExampleHeaders: Headers := map[0 := Example(0), 1 := Example(1), 2 := Example(2), 3 := Example(3)]

  method ExampleChain() returns (hc: HeaderChain)
    ensures fresh(hc) && hc.Valid() && hc.world == Example && hc.headers == ExampleHeaders && hc.head == 2
    ensures hc.td == map[0 := 10, 1 := 20, 2 := 30, 3 := 29]
  {
    hide Rooted, Named, Remains, IsIndex, IsHeaviest, Complete;
    hc := new HeaderChain(Example(0), Example);
    var s1 := hc.WriteHeader(Example(1), false);
    assert s1 == Canonical && hc.head == 1 && hc.td == map[0 := 10, 1 := 20];
    var s2 := hc.WriteHeader(Example(2), false);
    assert s2 == Canonical && hc.head == 2 && hc.td == map[0 := 10, 1 := 20, 2 := 30];
    var s3 := hc.WriteHeader(Example(3), false);
    assert s3 == Side;
  }

  /** A rewind to the genesis takes headers 1 and 2 but leaves the side header 3 without its
      parent, heavier than the head; its child is accepted, wins and crashes the walk. */
  method OrphanCrashes() returns (status: Status)
    ensures status == Crashed
  {
    hide Rooted, Named, Remains, IsIndex, IsHeaviest, Complete, Above;
    var hc := ExampleChain();
    ExampleIndex(hc.canon);
    hc.SetHead(0);
    assert hc.headers == map[0 := Example(0), 3 := Example(3)] && hc.td == map[0 := 10, 3 := 29];
    ExampleOrphan();
    status := hc.WriteHeader(Example(4), false);
  }

  lemma ExampleIndex(canon: map<nat, Hash>)
    requires IsIndex(ExampleHeaders, canon, 2)
    ensures canon == map[0 := 0, 1 := 1, 2 := 2] && Above(canon, 0) == {1, 2}
  {
    var hs := ExampleHeaders;
    assert Up(hs, 2, 0) == Some(2);
    assert Up(hs, 2, 1) == Up(hs, 1, 0) == Some(1);
    assert Up(hs, 2, 2) == Up(hs, 1, 1) == Up(hs, 0, 0) == Some(0);
    assert canon == map[0 := 0, 1 := 1, 2 := 2];
    assert canon[1] in Above(canon, 0) && canon[2] in Above(canon, 0);
  }

  lemma ExampleOrphan()
    ensures !Complete(map[0 := Example(0), 3 := Example(3)], 3)
  {
    var hs := map[0 := Example(0), 3 := Example(3)];
    assert Up(hs, 3, 2) == Up(hs, 1, 1) == None;
  }
}
